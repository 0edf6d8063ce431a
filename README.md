# BTC & ETH 7-day tracker: a verified model of its data layer

The dashboard `livetracker_staticone.py` fetches a week of hourly BTC and ETH
close prices, or reads a frozen snapshot of an earlier day. It then outer-joins
the two series on their timestamps and fills the gaps forward and then
backward. From the filled prices it draws three normalised portfolios (100 % BTC,
100 % ETH and a 50/50 mix), padded y-bounds, and a 7-period exponential trend
line per asset. It shows the last-row summary and a banner saying which asset
leads, and it appends that summary to a per-day CSV log.

This project models that data layer in Dafny and proves what it promises:

- `strings.dfy` (`Strings`): Python string order, `endswith`, and
  `split(c)[-1]` and `split(c)[0]`.
- `prices.dfy` (`Prices`): a series as a list of (timestamp, price) rows.
- `snapshots.dfy` (`Snapshots`): snapshot file names, date discovery
  (`sorted(set(...), reverse=True)`), and the raw-data directory as a class
  whose map of files the live run updates.
- `alignment.dfy` (`Alignment`): the outer join as a merge of two sorted
  indexes, and `ffill` and `bfill` as loops carrying the last value seen.
- `portfolio.dfy` (`Portfolio`): normalisation, the 50/50 mix and the y-range.
- `trend.dfy` (`Trend`): `ewm(span=7, adjust=False).mean()`, as a
  running-mean loop proved against a recursive definition.
- `metrics.dfy` (`Metrics`): ratio, returns, difference and the strict-`>`
  banner.
- `dailylog.dfy` (`DailyLog`): the log file as a list of lines, and the log
  directory as a class.
- `tracker.dfy` (`Tracker`): one run of the script, live or frozen, from
  the choice of mode to the logged row.

Prices are exact `real`s, so the model states the intended algebra rather
than IEEE behaviour. Timestamps are integers (milliseconds). The clock and the
exchange are parameters of `Tracker.Run`: `today` is the local date,
`now` is the row's timestamp text, and `fetched` holds the two downloaded
series, or nothing when the download failed.

The code and its surrounding documentation disagree in one place, and the
model follows the code. The closing caption (line 229) says snapshots are
"frozen once saved". However, every live run writes today's two snapshot
files again (lines 80-82), replacing those of an earlier run that day.
`Snapshots.RawDataDir.Save` replaces the file, and `SaveLive` is stated
accordingly.

## Model

| member | source | states |
|---|---|---|
| `Strings.Less` | livetracker_staticone.py:32-35 | Python's `<` on `str`, the order `sorted(..., reverse=True)` uses: a proper prefix sorts before the longer string; `LessIrreflexive`, `LessTransitive` and `LessTotal` make it a strict total order |
| `Strings.LessIrreflexive` | livetracker_staticone.py:32-35 | no string sorts before itself |
| `Strings.LessTransitive` | livetracker_staticone.py:32-35 | the order is transitive |
| `Strings.LessTotal` | livetracker_staticone.py:32-35 | of two different strings, one sorts before the other |
| `Strings.LessAsymmetric` | livetracker_staticone.py:32-35 | two strings never sort before each other both ways |
| `Strings.EndsWith` | livetracker_staticone.py:31 | `s.endswith(suffix)` holds iff `s` is some prefix followed by exactly `suffix` |
| `Strings.AfterLast` | livetracker_staticone.py:33 | `split(c)[-1]`: the result is a suffix of the input that has no `c` in it, and a `c` comes right before it whenever it is not the whole input |
| `Strings.BeforeFirst` | livetracker_staticone.py:33 | `split(c)[0]`: the result is a prefix of the input that has no `c` in it, and a `c` comes right after it whenever it is not the whole input |
| `Snapshots.IsCsv` | livetracker_staticone.py:31 | the listing filter keeps a name iff it is a stem followed by `.csv`, so every kept name contains a `.` |
| `Snapshots.SnapshotName` | livetracker_staticone.py:66-67 | `SYMBOL_<date>.csv`, the name read at lines 66-67 and written at lines 81-82: the symbol, then `_`, then the date, then `.csv`; `DateOfSnapshotName` reads the date back and `SnapshotNameInjective` shows distinct symbol–date pairs get distinct names |
| `Snapshots.DateOf` | livetracker_staticone.py:33 | the date read off a file name contains neither `_` nor `.` and is no longer than the name |
| `Snapshots.DateOfSnapshotName` | livetracker_staticone.py:31-35 | a snapshot name `SYMBOL_<date>.csv` passes the `.csv` filter, and for a date free of `_` and `.` the date read off the name is that date |
| `Snapshots.SnapshotNameInjective` | livetracker_staticone.py:66-67 | for dates free of `_` and `.`, equal snapshot names mean the same symbol and the same date |
| `Snapshots.SnapshotNamesDiffer` | livetracker_staticone.py:81-82 | the BTC and ETH snapshot names never coincide, whatever the dates |
| `Snapshots.SeparatorInDateIsLost` | livetracker_staticone.py:33 | a date with `_` in it is not read back: `BTCUSDT_2024_01_05.csv` yields `05` |
| `Snapshots.InsertDescending` | livetracker_staticone.py:32-35 | inserting a date into a strictly descending list keeps it strictly descending and adds exactly that date, and nothing when it is already there |
| `Snapshots.AvailableDates` | livetracker_staticone.py:31-35 | the offered dates are strictly descending (so free of duplicates), and a date is offered iff some `.csv` name in the listing yields it |
| `Snapshots.DescendingUnique` | livetracker_staticone.py:32-35 | two strictly descending lists with the same elements are equal, so the sorted set is unique |
| `Snapshots.AvailableDatesIgnoreOrder` | livetracker_staticone.py:31 | listings with the same names give the same offered dates, whatever order the directory lists them in |
| `Snapshots.SameDayGivesOneDate` | livetracker_staticone.py:33 | a day's BTC and ETH snapshots together contribute exactly one entry, that day |
| `Snapshots.SavedDateIsOffered` | livetracker_staticone.py:31-35 | once a snapshot of a well-formed date is in the listing, that date is offered |
| `Snapshots.RawDataDir.Save` | livetracker_staticone.py:81 | writing a snapshot sets exactly that file name to the series and replaces any earlier one |
| `Snapshots.RawDataDir.LoadFrozen` | livetracker_staticone.py:66-69 | loading a date succeeds iff both the BTC and the ETH file exist, and returns their contents; a missing BTC file is always the error, and otherwise the error names the missing ETH file |
| `Snapshots.RawDataDir.SaveLive` | livetracker_staticone.py:80-82 | the live run writes both of today's files, and a frozen load of today then returns exactly the series that were saved |
| `Alignment.UnionIndex` | livetracker_staticone.py:87 | the joined index is strictly increasing and holds exactly the timestamps of either series |
| `Alignment.PriceAt` | livetracker_staticone.py:87 | a series has no value at a timestamp iff the timestamp is absent, and a value found is that row's price |
| `Alignment.PriceAtFindsRow` | livetracker_staticone.py:87 | in a series with increasing timestamps, every row is found at its own timestamp with its own price |
| `Alignment.Join` | livetracker_staticone.py:87-88 | both columns span the union index, and each column has a value at a timestamp iff its series has that timestamp, with that series' price |
| `Alignment.JoinKeepsBtcRows` | livetracker_staticone.py:87 | every BTC row appears in the joined frame at its timestamp with its price |
| `Alignment.JoinKeepsEthRows` | livetracker_staticone.py:87 | every ETH row appears in the joined frame at its timestamp with its price |
| `Alignment.LastSeen` | livetracker_staticone.py:89 | there is no earlier-or-equal value iff every position up to `i` is a gap |
| `Alignment.LastSeenIsNearest` | livetracker_staticone.py:89 | the value carried forward is the one at the nearest non-gap position at or before `i` |
| `Alignment.NextSeen` | livetracker_staticone.py:89 | there is no later-or-equal value iff every position from `i` on is a gap |
| `Alignment.NextSeenIsNearest` | livetracker_staticone.py:89 | the value carried backward is the one at the nearest non-gap position at or after `i` |
| `Alignment.ForwardFill` | livetracker_staticone.py:89 | `ffill`, a left-to-right pass: each position holds the nearest value at or before it, if any |
| `Alignment.BackwardFill` | livetracker_staticone.py:89 | `bfill`, a right-to-left pass: each position holds the nearest value at or after it, if any |
| `Alignment.Filled` | livetracker_staticone.py:89 | what `ffill().bfill()` leaves at a position: a present value stays, and the position stays empty iff the whole column is empty |
| `Alignment.BackwardAfterForward` | livetracker_staticone.py:89 | `bfill` after `ffill` gives the nearest earlier value, or the nearest later one when there is none earlier |
| `Alignment.FilledHasNoGaps` | livetracker_staticone.py:89 | a column with any value leaves no gap after both passes |
| `Alignment.FilledIsSomePrice` | livetracker_staticone.py:89 | filling invents no price: every filled value is one of the series' own prices |
| `Alignment.FillColumn` | livetracker_staticone.py:89 | `ffill().bfill()` on a column keeps every present value, fills each gap from the nearest earlier (else later) value, and leaves no gap when any value exists |
| `Alignment.FillJoined` | livetracker_staticone.py:89 | both columns filled over the same index, with present values kept and each entry the filled value |
| `Alignment.AlignAndFill` | livetracker_staticone.py:87-89 | the frame's index is the sorted union, both columns are complete and filled, and every row of either series appears with its price |
| `Portfolio.Normalise` | livetracker_staticone.py:94-95 | the normalised column starts at exactly 1, and each entry times the first price gives back the price |
| `Portfolio.NormaliseIgnoresScale` | livetracker_staticone.py:94-95 | multiplying every price by a positive constant leaves the normalised column unchanged |
| `Portfolio.NormalisePositive` | livetracker_staticone.py:94-95 | positive prices give positive normalised values |
| `Portfolio.Mix` | livetracker_staticone.py:96 | the mix is the average of the two normalised values at each timestamp, and lies between them |
| `Portfolio.MixStartsAtOne` | livetracker_staticone.py:96 | the mix of two normalised columns starts at exactly 1 |
| `Portfolio.MinOf` | livetracker_staticone.py:104 | `min()` is a value of the column and no value is smaller |
| `Portfolio.MaxOf` | livetracker_staticone.py:105 | `max()` is a value of the column and no value is larger |
| `Portfolio.YRange` | livetracker_staticone.py:104-105 | the bounds are 0.995 times some plotted value and 1.005 times some plotted value, and they enclose every value padded the same way; with positive values every value lies strictly inside |
| `Portfolio.CurvesInsideRange` | livetracker_staticone.py:94-105 | for positive prices, all three curves are positive and strictly inside the y-range |
| `Trend.Alpha` | livetracker_staticone.py:134 | the smoothing factor 2 / (span + 1) lies in (0, 1] |
| `Trend.AlphaOfEmaSpan` | livetracker_staticone.py:19 | with `ema_period = 7` the smoothing factor is exactly 1/4 |
| `Trend.Ewm` | livetracker_staticone.py:134 | the trend line has one value per price and starts at the first price |
| `Trend.EwmPrefix` | livetracker_staticone.py:134 | later prices never change earlier trend values: the mean of a prefix is the prefix of the mean |
| `Trend.EwmStep` | livetracker_staticone.py:134 | every value after the first is alpha-weighted towards the new price (1/4 for span 7, by `AlphaOfEmaSpan`), `alpha * price + (1 - alpha) * previous` |
| `Trend.ExponentialMean` | livetracker_staticone.py:133-134 | the running-mean loop returns exactly the defined trend line: same length, first value the first price, and the recurrence at every later position |
| `Trend.EwmWithinBounds` | livetracker_staticone.py:155 | the trend line stays within any bounds the prices stay within |
| `Trend.EwmOfConstant` | livetracker_staticone.py:155 | a flat price gives a flat trend line at the same level |
| `Trend.EwmExample` | livetracker_staticone.py:134 | prices [100, 200] give the trend line [100, 125] |
| `Trend.EwmScales` | livetracker_staticone.py:155 | the trend line of scaled prices is the scaled trend line |
| `Metrics.ReturnPct` | livetracker_staticone.py:178-179 | the return is positive iff the normalised value exceeds 1, zero iff it equals 1, and turns back into that value |
| `Metrics.Summarise` | livetracker_staticone.py:175-180 | the tiles hold the last normalised values, a ratio that times the BTC value gives the ETH value, each return, and a difference equal to the gap in percentage points |
| `Metrics.Signal` | livetracker_staticone.py:187-190 | ETH is reported leading iff its last value is strictly greater, and BTC otherwise |
| `Metrics.SignalAgreesWithSummary` | livetracker_staticone.py:177-190 | with a positive BTC value, ETH leads iff the return difference is positive, and iff the ratio exceeds 1 |
| `Metrics.TieReportsBtc` | livetracker_staticone.py:187-190 | a tie is reported as BTC leading |
| `Metrics.EthLeadsExample` | livetracker_staticone.py:175-188 | with BTC at 1.10 and ETH at 1.15, ETH leads, the ratio is 1.15/1.10 (1.0455 to four places) and the difference is 5 points |
| `DailyLog.LogName` | livetracker_staticone.py:196 | the log name is the date wrapped in `crypto_tracker_` and `.csv` |
| `DailyLog.LogNameInjective` | livetracker_staticone.py:196 | different days are logged to different files |
| `DailyLog.AppendRow` | livetracker_staticone.py:211-214 | a missing file is created with the header and the row; an existing file keeps its lines and gains exactly the row and no header; a well-formed log stays well-formed |
| `DailyLog.Replay` | livetracker_staticone.py:211-214 | the runs of a day leave no file iff there were none |
| `DailyLog.ReplayShape` | livetracker_staticone.py:211-214 | after n runs on one day starting from no file, the log has one header, at the top, and exactly the n rows in order |
| `DailyLog.LogDirectory.Read` | livetracker_staticone.py:211 | a day's log exists iff its name is in the directory, and reading it gives its lines |
| `DailyLog.LogDirectory.Append` | livetracker_staticone.py:211-214 | the day's file becomes the appended file, gains exactly the row, and no other file changes |
| `Tracker.SnapshotOptions` | livetracker_staticone.py:37 | the selector lists the live view first, then exactly the offered dates, strictly descending |
| `Tracker.CheckSeries` | livetracker_staticone.py:87-95 | the model's own admission check, standing for the error paths listed under `Tracker.Analyse` in "Left out": a series is accepted iff it has rows, strictly increasing timestamps and positive prices; an empty series is `NoPrices`, a non-empty unordered one `Unordered`, and an ordered one with a non-positive price `NonPositivePrice` |
| `Tracker.SummaryRow` | livetracker_staticone.py:198-209 | the log row holds the timestamp, the last filled prices, and the last normalised BTC and ETH values and mix; its ratio times the BTC value gives the ETH value, each return is `ReturnPct` of its normalised value, and the difference is the gap between the normalised values in percentage points |
| `Tracker.FilledPositive` | livetracker_staticone.py:89 | every filled price of a usable series is positive |
| `Tracker.Derive` | livetracker_staticone.py:94-209 | from a complete frame: the frame itself, normalised columns, mix and both trend lines each with one value per timestamp, and a log row stamped with the run's time holding the last prices; `ReportCurvesInsideRange` and `ReportLeaderAgreesWithTiles` state what it promises about the chart and the tiles, and `SummaryRow` pins the row |
| `Tracker.Analyse` | livetracker_staticone.py:87-209 | the analysis succeeds iff both series are usable, else it reports BTC's defect first; on success the frame is the filled join and every derived value is the modelled one, with the trend lines computed by the loop |
| `Tracker.ReportCurvesInsideRange` | livetracker_staticone.py:104-127 | every point of the three portfolio curves is positive and strictly inside the chart's y-range |
| `Tracker.ReportLeaderAgreesWithTiles` | livetracker_staticone.py:175-190 | the banner says ETH iff the ratio exceeds 1 and iff the difference is positive, and all three portfolios start at 1 |
| `Tracker.Run` | livetracker_staticone.py:64-214 | frozen mode changes no snapshot; a failed download stops the run with nothing written; a live download is saved as today's snapshots; a missing snapshot stops the run; a report appends exactly its row to today's log, and an error leaves the logs unchanged |
| `Tracker.LiveRunIsOffered` | livetracker_staticone.py:31-37 | after a live run writes today's two snapshots into the raw-data directory, any listing of exactly that directory's names offers today among the selector's dates |

## Left out

- The Binance download `get_binance_data` (lines 43-59) is network I/O and JSON parsing. `Tracker.Run` takes its outcome as the `fetched` parameter.
- All Streamlit and Plotly calls are left out because they only display: page setup, sidebar, selector widget, the three charts, the metric tiles, the banner's text, the download button and the final captions (lines 11-12, 25, 37, 65, 71, 76, 110-170, 182-190, 216-229).
- Real filesystem calls (`os.listdir`, `os.makedirs`, `to_csv`, `read_csv`, `open`) are left out. Directories are maps from file name to contents. A listing is a sequence of names in any order. The CSV text format and its round trip are not modelled.
- The `data_logs/raw_data/` and `data_logs/` path prefixes are left out. Names are bare file names within their directory.
- The wall clock (`datetime.now`, `datetime.utcnow`) is a pair of parameters. The script reads the clock separately for the snapshot date (line 80) and the log name (line 196), so a run across midnight could use two dates. The model uses one `today` for both.
- The log's `timestamp_utc` column is filled from the local clock (line 199). The model takes the timestamp text as given.
- The script sets `refresh_interval` (line 17) and never reads it. `days_to_track` only feeds the download and chart titles.
- IEEE float rounding, and the `:.4f` and `:.2f` display formatting, are left out. Prices are exact reals.
- Timestamp parsing (`pd.to_datetime`, `parse_dates`) is left out. Timestamps are integers.
- `Tracker.Analyse`: by choice, the model rejects an empty series, every series whose timestamps are not strictly increasing, and every series with a non-positive price; it returns an error and logs nothing. When both series are empty the script agrees in effect: `data` has no rows, `.iloc[0]` at line 94 raises `IndexError`, and the script stops before the log write at line 211, with live snapshots already saved. In the other cases the script goes on. When exactly one series is empty, its column is all NaN after the fills at line 89. A zero first price gives NaN or infinity at lines 94-95, and a zero last BTC value does so in the ratio at line 177. A zero or negative price elsewhere just becomes a zero or negative normalised value. Unsorted timestamps without duplicates are sorted by the outer `concat` at line 87. The model covers the downloads that return at least one row per asset, with strictly increasing timestamps and positive prices. An empty kline list from the exchange is rejected with `NoPrices`, and nothing is logged, whereas the script would log NaN values unless both lists are empty.
- `Alignment.Join`: requires both series to have strictly increasing timestamps, as a kline download does.
- `Tracker.Run`: a missing frozen snapshot makes `read_csv` raise and the script stop. The model returns `SnapshotMissing` naming the file.
