/**
  One run of the dashboard script, top to bottom: choose live or frozen
  data, freeze a live fetch as today's snapshots, align and fill the two
  price series, derive the portfolios, the y-range, the trend lines and the
  summary, and log the summary row to today's log file.

  The clock and the exchange are parameters: `today` is the local date
  (`YYYY-MM-DD`), `now` the run's timestamp text, and `fetched` the two
  downloaded series, `None` when the download failed.
*/
module Tracker {
  import opened Wrappers
  import opened Prices
  import opened Snapshots
  import opened Alignment
  import opened Portfolio
  import opened Trend
  import opened Metrics
  import opened DailyLog

  /** The first entry of the date selector, which switches freeze mode off. */
  const LiveChoice: string := "Today (Live)"

  /** The selector's entries: the live view, then every offered date, newest first. */
  function SnapshotOptions(listing: seq<string>): (options: seq<string>)
    ensures |options| > 0 && options[0] == LiveChoice
    ensures StrictlyDescending(options[1..])
    ensures forall d :: d in options[1..] <==> Offered(listing, d)
  {
    var dates := AvailableDates(listing);
    assert ([LiveChoice] + dates)[1..] == dates;
    [LiveChoice] + dates
  }

  /** Why a run produces no report. */
  datatype RunError =
    | FetchFailed
    | SnapshotMissing(name: string)
    | NoPrices(symbol: string)
    | Unordered(symbol: string)
    | NonPositivePrice(symbol: string)

  /** A series the analysis can use: some rows, timestamps strictly increasing, prices positive. */
  predicate Usable(s: Series)
  {
    s != [] && Increasing(Times(s)) && AllPositive(PriceColumn(s))
  }

  /** The first thing wrong with an asset's series, if anything. */
  function CheckSeries(symbol: string, s: Series): (e: Option<RunError>)
    ensures e.None? <==> Usable(s)
    ensures e.Some? ==> e.value == NoPrices(symbol) || e.value == Unordered(symbol) || e.value == NonPositivePrice(symbol)
    ensures e == Some(NoPrices(symbol)) <==> s == []
    ensures e == Some(Unordered(symbol)) <==> s != [] && !Increasing(Times(s))
    ensures e == Some(NonPositivePrice(symbol)) <==> s != [] && Increasing(Times(s)) && !AllPositive(PriceColumn(s))
  {
    if s == [] then Some(NoPrices(symbol))
    else if !Increasing(Times(s)) then Some(Unordered(symbol))
    else if !AllPositive(PriceColumn(s)) then Some(NonPositivePrice(symbol))
    else None
  }

  /** Everything a run shows and logs. */
  datatype Report = Report(
    frame: Frame,
    btcNormalised: seq<real>,
    ethNormalised: seq<real>,
    mix: seq<real>,
    bounds: Bounds,
    btcTrend: seq<real>,
    ethTrend: seq<real>,
    summary: Summary,
    leader: Leader,
    row: LogRow)

  /**
    The log row of a run (lines 198-209): the timestamp, the last filled
    prices, and, from the last row of the normalised columns, both
    normalised values, the mix, their ratio, both returns and the difference
    of the returns.
  */
  function SummaryRow(now: string, btc: seq<real>, eth: seq<real>,
                      btcNormalised: seq<real>, ethNormalised: seq<real>, mix: seq<real>): (row: LogRow)
    requires |btc| > 0 && |eth| > 0 && |btcNormalised| > 0 && |ethNormalised| > 0 && |mix| > 0
    requires btcNormalised[|btcNormalised| - 1] != 0.0
    ensures row.timestamp == now
    ensures row.btcPrice == btc[|btc| - 1] && row.ethPrice == eth[|eth| - 1]
    ensures row.btcNormalised == btcNormalised[|btcNormalised| - 1]
    ensures row.ethNormalised == ethNormalised[|ethNormalised| - 1]
    ensures row.mix == mix[|mix| - 1]
    ensures row.ethBtcRatio * row.btcNormalised == row.ethNormalised
    ensures row.btcReturnPct == ReturnPct(row.btcNormalised) && row.ethReturnPct == ReturnPct(row.ethNormalised)
    ensures row.diffPct == (row.ethNormalised - row.btcNormalised) * 100.0
  {
    var s := Summarise(btcNormalised, ethNormalised);
    LogRow(now, btc[|btc| - 1], eth[|eth| - 1], s.btcLast, s.ethLast, mix[|mix| - 1],
           s.ethBtcRatio, s.btcReturnPct, s.ethReturnPct, s.diffPct)
  }

  /**
    The frame lines 87-89 make of two series: over the sorted union of their
    timestamps, each column holding the filled value at every position.
  */
  ghost predicate FrameOf(f: Frame, btc: Series, eth: Series)
    requires Usable(btc) && Usable(eth)
  {
    var j := Join(btc, eth);
    f.index == j.index && |f.btc| == |f.index| && |f.eth| == |f.index|
    && (forall i :: 0 <= i < |f.index| ==> Some(f.btc[i]) == Filled(j.btc, i))
    && (forall i :: 0 <= i < |f.index| ==> Some(f.eth[i]) == Filled(j.eth, i))
  }

  /** A frame the rest of the analysis can use: rows, equal lengths, positive prices. */
  predicate Complete(f: Frame)
  {
    |f.index| > 0 && |f.btc| == |f.index| && |f.eth| == |f.index| && AllPositive(f.btc) && AllPositive(f.eth)
  }

  /**
    What lines 94-209 derive from a frame: the normalised columns and their
    mix, the y-range of the three, both trend lines over the prices, the
    tiles of the last row, the banner, and the log row.
  */
  function Derive(f: Frame, now: string): (rep: Report)
    requires Complete(f)
    ensures rep.frame == f
    ensures |rep.btcNormalised| == |rep.ethNormalised| == |rep.mix| == |rep.btcTrend| == |rep.ethTrend| == |f.index|
    ensures rep.row.btcPrice == f.btc[|f.btc| - 1] && rep.row.ethPrice == f.eth[|f.eth| - 1]
    ensures rep.row.timestamp == now
  {
    var btcNormalised, ethNormalised := Normalise(f.btc), Normalise(f.eth);
    var mix := Mix(btcNormalised, ethNormalised);
    var summary := Summarise(btcNormalised, ethNormalised);
    Report(
      f, btcNormalised, ethNormalised, mix,
      YRange(btcNormalised, ethNormalised, mix),
      Ewm(f.btc, Alpha(EmaSpan)), Ewm(f.eth, Alpha(EmaSpan)),
      summary, Signal(summary.btcLast, summary.ethLast),
      SummaryRow(now, f.btc, f.eth, btcNormalised, ethNormalised, mix))
  }

  /** Every filled price of a column joined from a usable series is positive. */
  lemma FilledPositive(s: Series, index: seq<int>, col: Column, filled: seq<real>)
    requires Usable(s)
    requires |col| == |index| && |filled| == |col|
    requires forall k :: 0 <= k < |col| && col[k].Some? ==> PricePoint(index[k], col[k].value) in s
    requires forall i :: 0 <= i < |col| ==> Some(filled[i]) == Filled(col, i)
    ensures AllPositive(filled)
  {
    forall i | 0 <= i < |filled|
      ensures filled[i] > 0.0
    {
      FilledIsSomePrice(s, index, col, i);
      var p :| p in s && p.price == Filled(col, i).value;
      var k :| 0 <= k < |s| && s[k] == p;
      assert PriceColumn(s)[k] == p.price;
    }
  }

  /**
    Lines 87-190 and the log row of lines 198-209: the analysis of two series.
    It succeeds exactly when both are usable, reporting the first problem of
    BTC, else of ETH, otherwise; on success the frame is the filled join of
    the two series and the report is the one `Derive` makes of it, with the
    trend lines computed by the running-mean loop.
  */
  method Analyse(btc: Series, eth: Series, now: string) returns (r: Result<Report, RunError>)
    ensures r.Ok? <==> Usable(btc) && Usable(eth)
    ensures r.Err? && !Usable(btc) ==> Some(r.error) == CheckSeries(BtcSymbol, btc)
    ensures r.Err? && Usable(btc) ==> Some(r.error) == CheckSeries(EthSymbol, eth)
    ensures r.Ok? ==> FrameOf(r.value.frame, btc, eth) && Complete(r.value.frame)
    ensures r.Ok? ==> r.value == Derive(r.value.frame, now)
  {
    var problem := CheckSeries(BtcSymbol, btc);
    if problem.Some? {
      return Err(problem.value);
    }
    problem := CheckSeries(EthSymbol, eth);
    if problem.Some? {
      return Err(problem.value);
    }
    var f := AlignAndFill(btc, eth);
    var j := Join(btc, eth);
    FilledPositive(btc, j.index, j.btc, f.btc);
    FilledPositive(eth, j.index, j.eth, f.eth);
    var btcTrend := ExponentialMean(f.btc, EmaSpan);
    var ethTrend := ExponentialMean(f.eth, EmaSpan);
    var rep := Derive(f, now);
    r := Ok(rep.(btcTrend := btcTrend, ethTrend := ethTrend));
  }

  /**
    Every normalised value on the portfolio chart is positive and lies
    strictly inside the chart's y-range.
  */
  lemma ReportCurvesInsideRange(f: Frame, now: string)
    requires Complete(f)
    ensures var rep := Derive(f, now);
      AllPositive(rep.btcNormalised + rep.ethNormalised + rep.mix) &&
      forall x :: x in rep.btcNormalised + rep.ethNormalised + rep.mix ==> rep.bounds.lo < x < rep.bounds.hi
  {
    CurvesInsideRange(f.btc, f.eth);
  }

  /**
    The banner and the tiles agree: ETH is reported leading exactly when the
    ETH/BTC ratio is above 1 and exactly when the return difference is
    positive; the portfolios start at 1 so the returns are measured from the
    first row of the window.
  */
  lemma ReportLeaderAgreesWithTiles(f: Frame, now: string)
    requires Complete(f)
    ensures var rep := Derive(f, now);
      (rep.leader == EthLeading <==> rep.summary.ethBtcRatio > 1.0) &&
      (rep.leader == EthLeading <==> rep.summary.diffPct > 0.0) &&
      rep.btcNormalised[0] == 1.0 && rep.ethNormalised[0] == 1.0 && rep.mix[0] == 1.0
  {
    var rep := Derive(f, now);
    NormalisePositive(f.btc);
    var n := |rep.btcNormalised|;
    assert rep.btcNormalised[n - 1] > 0.0;
    SignalAgreesWithSummary(rep.btcNormalised, rep.ethNormalised);
  }

  /**
    One run of the script. The selector's choice decides the mode; live
    mode without a download stops with nothing written; a live download is
    saved as today's snapshots before anything else; frozen mode reads the
    chosen day's snapshots and changes none. A run that produces a report
    appends exactly its row to today's log, and a run that does not leaves
    every log as it was.
  */
  method Run(choice: string, fetched: Option<(Series, Series)>, today: string, now: string,
             raw: RawDataDir, logs: LogDirectory) returns (r: Result<Report, RunError>)
    modifies raw, logs
    ensures choice != LiveChoice ==> raw.files == old(raw.files)
    ensures choice == LiveChoice && fetched.None? ==> r == Err(FetchFailed) && raw.files == old(raw.files)
    ensures choice == LiveChoice && fetched.Some? ==>
      raw.files == old(raw.files)[SnapshotName(BtcSymbol, today) := fetched.value.0][SnapshotName(EthSymbol, today) := fetched.value.1]
      && raw.LoadFrozen(today) == Ok(fetched.value)
    ensures choice == LiveChoice && fetched.Some? ==>
      (r.Ok? <==> Usable(fetched.value.0) && Usable(fetched.value.1))
      && (r.Ok? ==> FrameOf(r.value.frame, fetched.value.0, fetched.value.1) && Complete(r.value.frame)
                    && r.value == Derive(r.value.frame, now))
    ensures choice != LiveChoice && old(raw.LoadFrozen(choice)).Err? ==>
      r == Err(SnapshotMissing(old(raw.LoadFrozen(choice)).error))
    ensures choice != LiveChoice && old(raw.LoadFrozen(choice)).Ok? ==>
      var (btc, eth) := old(raw.LoadFrozen(choice)).value;
      (r.Ok? <==> Usable(btc) && Usable(eth))
      && (r.Ok? ==> FrameOf(r.value.frame, btc, eth) && Complete(r.value.frame) && r.value == Derive(r.value.frame, now))
    ensures r.Ok? ==> logs.files == old(logs.files)[LogName(today) := AppendRow(old(logs.Read(today)), r.value.row)]
    ensures r.Err? ==> logs.files == old(logs.files)
  {
    var btc: Series, eth: Series;
    if choice != LiveChoice {
      var loaded := raw.LoadFrozen(choice);
      if loaded.Err? {
        return Err(SnapshotMissing(loaded.error));
      }
      btc, eth := loaded.value.0, loaded.value.1;
    } else {
      if fetched.None? {
        return Err(FetchFailed);
      }
      btc, eth := fetched.value.0, fetched.value.1;
      raw.SaveLive(today, btc, eth);
    }
    r := Analyse(btc, eth, now);
    if r.Ok? {
      logs.Append(today, r.value.row);
    }
  }

  /**
    A day's live run leaves that day among the selector's entries: for the
    directory `Run` leaves after a live download (today's two snapshots
    written over whatever was there), any listing of exactly its names
    offers today, whatever order the names come in.
  */
  lemma LiveRunIsOffered(before: map<string, Series>, today: string, btc: Series, eth: Series, listing: seq<string>)
    requires '_' !in today && '.' !in today
    requires forall name :: name in listing <==>
      name in before[SnapshotName(BtcSymbol, today) := btc][SnapshotName(EthSymbol, today) := eth]
    ensures today in SnapshotOptions(listing)[1..]
  {
    SavedDateIsOffered(listing, BtcSymbol, today);
  }
}
