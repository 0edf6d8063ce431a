/**
  The daily summary log: one file per local calendar day,
  `data_logs/crypto_tracker_<date>.csv`, holding a header line written when
  the file is created and one data line per run of the dashboard that day.
*/
module DailyLog {
  import opened Wrappers

  /** The log's column names, in the order the header lists them. */
  const LogColumns: seq<string> := [
    "timestamp_utc", "BTC_Price", "ETH_Price", "BTC_Normalized", "ETH_Normalized",
    "Mix_50_50", "ETH_BTC_Ratio", "BTC_Return_%", "ETH_Return_%", "Difference_%"]

  /** One run's summary, one field per column of `LogColumns`, in that order. */
  datatype LogRow = LogRow(
    timestamp: string,
    btcPrice: real,
    ethPrice: real,
    btcNormalised: real,
    ethNormalised: real,
    mix: real,
    ethBtcRatio: real,
    btcReturnPct: real,
    ethReturnPct: real,
    diffPct: real)

  /** A line of a log file: the header, or one run's row. */
  datatype Line = Header(columns: seq<string>) | Data(row: LogRow)

  /** The log file of a day: `f"crypto_tracker_{date}.csv"`. */
  function LogName(date: string): (name: string)
    ensures |name| == |date| + 19
    ensures name[15..15 + |date|] == date
  {
    "crypto_tracker_" + date + ".csv"
  }

  /** Distinct days are logged to distinct files. */
  lemma LogNameInjective(date1: string, date2: string)
    requires LogName(date1) == LogName(date2)
    ensures date1 == date2
  {
  }

  /** How many header lines a file holds. */
  function HeaderCount(lines: seq<Line>): (n: nat)
    ensures n <= |lines|
  {
    if lines == [] then 0
    else HeaderCount(lines[..|lines| - 1]) + (if lines[|lines| - 1].Header? then 1 else 0)
  }

  /** The rows of a file's data lines, in file order. */
  function Rows(lines: seq<Line>): (rows: seq<LogRow>)
    ensures |rows| + HeaderCount(lines) == |lines|
  {
    if lines == [] then []
    else
      var init := Rows(lines[..|lines| - 1]);
      if lines[|lines| - 1].Data? then init + [lines[|lines| - 1].row] else init
  }

  lemma CountsSnoc(lines: seq<Line>, l: Line)
    ensures HeaderCount(lines + [l]) == HeaderCount(lines) + (if l.Header? then 1 else 0)
    ensures Rows(lines + [l]) == if l.Data? then Rows(lines) + [l.row] else Rows(lines)
  {
    assert (lines + [l])[..|lines|] == lines;
  }

  /** A log as the dashboard leaves it: the header first, and no other header. */
  predicate WellFormed(lines: seq<Line>)
  {
    |lines| > 0 && lines[0] == Header(LogColumns) && HeaderCount(lines) == 1
  }

  /** The lines of a file, none when it does not exist. */
  function Contents(file: Option<seq<Line>>): seq<Line>
  {
    if file.Some? then file.value else []
  }

  /**
    One run's write: a file that does not exist is created with the header
    and the row; an existing file keeps every line it had and gains exactly
    the row, with no second header. A well-formed log stays well-formed.
  */
  function AppendRow(file: Option<seq<Line>>, row: LogRow): (lines: seq<Line>)
    ensures |lines| == |Contents(file)| + (if file.None? then 2 else 1)
    ensures lines[..|Contents(file)|] == Contents(file)
    ensures file.None? ==> lines[0] == Header(LogColumns)
    ensures HeaderCount(lines) == HeaderCount(Contents(file)) + (if file.None? then 1 else 0)
    ensures Rows(lines) == Rows(Contents(file)) + [row]
    ensures (file.None? || WellFormed(file.value)) ==> WellFormed(lines)
  {
    match file
    case None =>
      CountsSnoc([Header(LogColumns)], Data(row));
      CountsSnoc([], Header(LogColumns));
      [Header(LogColumns), Data(row)]
    case Some(existing) =>
      CountsSnoc(existing, Data(row));
      existing + [Data(row)]
  }

  /** The file after a day's runs, in order, starting from no file. */
  function Replay(rows: seq<LogRow>): (file: Option<seq<Line>>)
    ensures file.None? <==> rows == []
  {
    if rows == [] then None
    else Some(AppendRow(Replay(rows[..|rows| - 1]), rows[|rows| - 1]))
  }

  /**
    After n runs on one day, starting from no file, the log holds exactly one
    header, at the top, and exactly the n rows of those runs, in order.
  */
  lemma {:induction false} ReplayShape(rows: seq<LogRow>)
    requires |rows| > 0
    ensures Replay(rows).Some?
    ensures WellFormed(Replay(rows).value)
    ensures Rows(Replay(rows).value) == rows
    ensures |Replay(rows).value| == |rows| + 1
    decreases |rows|
  {
    var init := rows[..|rows| - 1];
    if |init| > 0 {
      ReplayShape(init);
    }
    assert init + [rows[|rows| - 1]] == rows;
  }

  /** The log directory: each log file name and its lines. */
  class LogDirectory {
    var files: map<string, seq<Line>>

    constructor ()
      ensures files == map[]
    {
      files := map[];
    }

    /** The day's log, none when `os.path.exists` would say it is absent. */
    function Read(date: string): (file: Option<seq<Line>>)
      reads this
      ensures file.Some? <==> LogName(date) in files
      ensures file.Some? ==> file.value == files[LogName(date)]
    {
      if LogName(date) in files then Some(files[LogName(date)]) else None
    }

    /**
      Logs one run under the day's name: that file gains the row (and the
      header if it was new), and no other file changes.
    */
    method Append(date: string, row: LogRow)
      modifies this
      ensures files == old(files)[LogName(date) := AppendRow(old(Read(date)), row)]
      ensures Rows(files[LogName(date)]) == Rows(Contents(old(Read(date)))) + [row]
      ensures forall name :: name in old(files) && name != LogName(date) ==> name in files && files[name] == old(files)[name]
    {
      files := files[LogName(date) := AppendRow(Read(date), row)];
    }
  }
}
