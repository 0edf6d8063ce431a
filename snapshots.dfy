/**
  Raw snapshots: one file per asset and calendar day, named `<SYMBOL>_<date>.csv`
  under the raw-data directory, and the list of dates the historical viewer
  offers, recovered from the names found in that directory.
*/
module Snapshots {
  import opened Wrappers
  import opened Strings
  import opened Prices

  const BtcSymbol: string := "BTCUSDT"
  const EthSymbol: string := "ETHUSDT"

  /** The name of the snapshot of one asset for one day: `f"{symbol}_{date}.csv"`. */
  function SnapshotName(symbol: string, date: string): (name: string)
    ensures |name| == |symbol| + |date| + 5
    ensures name[..|symbol|] == symbol && name[|symbol|] == '_'
    ensures name[|symbol| + 1..|symbol| + 1 + |date|] == date
  {
    symbol + "_" + date + ".csv"
  }

  /** The directory filter of the viewer: the name ends in `.csv`. */
  predicate IsCsv(name: string)
    ensures IsCsv(name) <==> |name| >= 4 && name == name[..|name| - 4] + ".csv"
    ensures IsCsv(name) ==> '.' in name
  {
    EndsWith(name, ".csv")
  }

  /**
    The date the viewer reads off a file name: the text after the last `_`,
    cut at its first `.` (`name.split("_")[-1].split(".")[0]`).
  */
  function DateOf(name: string): (d: string)
    ensures '_' !in d && '.' !in d
    ensures |d| <= |name|
  {
    var tail := AfterLast(name, '_');
    var d := BeforeFirst(tail, '.');
    assert forall k :: 0 <= k < |d| ==> d[k] == tail[k];
    d
  }

  /** A date free of `_` and `.` (such as `YYYY-MM-DD`) is read back from its snapshot's name. */
  lemma DateOfSnapshotName(symbol: string, date: string)
    requires '_' !in date && '.' !in date
    ensures IsCsv(SnapshotName(symbol, date))
    ensures DateOf(SnapshotName(symbol, date)) == date
  {
    var name := SnapshotName(symbol, date);
    assert name == symbol + ['_'] + (date + ".csv");
    AfterLastOfJoin(symbol, '_', date + ".csv");
    assert date + ".csv" == date + ['.'] + "csv";
    BeforeFirstOfJoin(date, '.', "csv");
  }

  /**
    Names are unambiguous for well-formed dates: equal names mean the same
    asset and the same day.
  */
  lemma SnapshotNameInjective(symbol1: string, date1: string, symbol2: string, date2: string)
    requires '_' !in date1 && '.' !in date1 && '_' !in date2 && '.' !in date2
    requires SnapshotName(symbol1, date1) == SnapshotName(symbol2, date2)
    ensures symbol1 == symbol2 && date1 == date2
  {
    DateOfSnapshotName(symbol1, date1);
    DateOfSnapshotName(symbol2, date2);
    var name := SnapshotName(symbol1, date1);
    assert symbol1 == name[..|symbol1|];
    assert symbol2 == name[..|symbol2|];
  }

  /** A date that does contain `_` is not read back: only its last piece survives. */
  lemma SeparatorInDateIsLost()
    ensures DateOf(SnapshotName(BtcSymbol, "2024_01_05")) == "05"
  {
    var name := SnapshotName(BtcSymbol, "2024_01_05");
    assert name == BtcSymbol + "_" + "2024_01_05" + ".csv";
    assert name == "BTCUSDT_2024_01" + ['_'] + "05.csv";
    AfterLastOfJoin("BTCUSDT_2024_01", '_', "05.csv");
    assert "05.csv" == "05" + ['.'] + "csv";
    BeforeFirstOfJoin("05", '.', "csv");
  }

  /** The two assets' snapshots never share a name, so saving one never replaces the other. */
  lemma SnapshotNamesDiffer(date1: string, date2: string)
    ensures SnapshotName(BtcSymbol, date1) != SnapshotName(EthSymbol, date2)
  {
    assert SnapshotName(BtcSymbol, date1)[0] == 'B';
    assert SnapshotName(EthSymbol, date2)[0] == 'E';
  }

  /** Sorted in descending Python string order, hence without duplicates. */
  predicate StrictlyDescending(ds: seq<string>)
  {
    forall i, j :: 0 <= i < j < |ds| ==> Less(ds[j], ds[i])
  }

  lemma HeadIsGreatest(ds: seq<string>, y: string)
    requires StrictlyDescending(ds) && y in ds && y != ds[0]
    ensures Less(y, ds[0])
  {
    var k :| 0 <= k < |ds| && ds[k] == y;
  }

  lemma HeadNotInTail(ds: seq<string>)
    requires StrictlyDescending(ds) && ds != []
    ensures ds[0] !in ds[1..]
  {
    if ds[0] in ds[1..] {
      var k :| 1 <= k < |ds| && ds[k] == ds[0];
      LessIrreflexive(ds[0]);
    }
  }

  /**
    Adds one date to a descending list, keeping it descending and adding
    nothing when the date is already there: together with the fold in
    `AvailableDates` this is `sorted(set(...), reverse=True)`.
  */
  function InsertDescending(x: string, ds: seq<string>): (r: seq<string>)
    requires StrictlyDescending(ds)
    ensures StrictlyDescending(r)
    ensures forall y :: y in r <==> y == x || y in ds
    decreases |ds|
  {
    if ds == [] then [x]
    else if x == ds[0] then ds
    else if Less(ds[0], x) then
      assert forall y :: y in ds ==> Less(y, x) by {
        forall y | y in ds
          ensures Less(y, x)
        {
          if y != ds[0] {
            HeadIsGreatest(ds, y);
            LessTransitive(y, ds[0], x);
          }
        }
      }
      [x] + ds
    else
      LessTotal(x, ds[0]);
      var rest := InsertDescending(x, ds[1..]);
      assert forall y :: y in rest ==> Less(y, ds[0]) by {
        forall y | y in rest
          ensures Less(y, ds[0])
        {
          if y != x {
            HeadNotInTail(ds);
            HeadIsGreatest(ds, y);
          }
        }
      }
      [ds[0]] + rest
  }

  /** Some `.csv` name in the listing yields date d. */
  ghost predicate Offered(files: seq<string>, d: string)
  {
    exists f :: f in files && IsCsv(f) && DateOf(f) == d
  }

  /**
    The dates the historical viewer offers for a directory listing: the date
    of every `.csv` name, each once, newest (greatest) first.
  */
  function AvailableDates(files: seq<string>): (dates: seq<string>)
    ensures StrictlyDescending(dates)
    ensures forall d :: d in dates <==> Offered(files, d)
    decreases |files|
  {
    if files == [] then []
    else
      var rest := AvailableDates(files[1..]);
      assert forall d :: Offered(files, d) <==> Offered(files[1..], d) || (IsCsv(files[0]) && DateOf(files[0]) == d) by {
        forall d
          ensures Offered(files, d) <==> Offered(files[1..], d) || (IsCsv(files[0]) && DateOf(files[0]) == d)
        {
          if Offered(files, d) {
            var f :| f in files && IsCsv(f) && DateOf(f) == d;
            if f != files[0] {
              assert f in files[1..];
            }
          }
          if Offered(files[1..], d) {
            var f :| f in files[1..] && IsCsv(f) && DateOf(f) == d;
            assert f in files;
          }
          assert files[0] in files;
        }
      }
      if IsCsv(files[0]) then InsertDescending(DateOf(files[0]), rest) else rest
  }

  /** A descending list is determined by its elements. */
  lemma {:induction false} DescendingUnique(s: seq<string>, t: seq<string>)
    requires StrictlyDescending(s) && StrictlyDescending(t)
    requires forall y :: y in s <==> y in t
    ensures s == t
    decreases |s|
  {
    if s != [] {
      assert s[0] in t;
    }
    if t != [] {
      assert t[0] in s;
    }
    if s != [] && t != [] {
      if s[0] != t[0] {
        assert t[0] in s && s[0] in t;
        HeadIsGreatest(s, t[0]);
        HeadIsGreatest(t, s[0]);
        LessAsymmetric(s[0], t[0]);
      }
      HeadNotInTail(s);
      HeadNotInTail(t);
      forall y
        ensures y in s[1..] <==> y in t[1..]
      {
        assert y in s <==> y == s[0] || y in s[1..];
        assert y in t <==> y == t[0] || y in t[1..];
      }
      DescendingUnique(s[1..], t[1..]);
      assert s == [s[0]] + s[1..] && t == [t[0]] + t[1..];
    }
  }

  /** The order in which the directory lists its files does not matter. */
  lemma AvailableDatesIgnoreOrder(a: seq<string>, b: seq<string>)
    requires forall f :: f in a <==> f in b
    ensures AvailableDates(a) == AvailableDates(b)
  {
    var da, db := AvailableDates(a), AvailableDates(b);
    forall d
      ensures d in da <==> d in db
    {
      if Offered(a, d) {
        var f :| f in a && IsCsv(f) && DateOf(f) == d;
        assert f in b;
      }
      if Offered(b, d) {
        var f :| f in b && IsCsv(f) && DateOf(f) == d;
        assert f in a;
      }
    }
    DescendingUnique(da, db);
  }

  /** A day's BTC and ETH snapshots contribute one entry between them. */
  lemma SameDayGivesOneDate(date: string)
    requires '_' !in date && '.' !in date
    ensures AvailableDates([SnapshotName(BtcSymbol, date), SnapshotName(EthSymbol, date)]) == [date]
  {
    var files := [SnapshotName(BtcSymbol, date), SnapshotName(EthSymbol, date)];
    DateOfSnapshotName(BtcSymbol, date);
    DateOfSnapshotName(EthSymbol, date);
    var ds := AvailableDates(files);
    forall d
      ensures d in ds <==> d in [date]
    {
      if Offered(files, d) {
        var f :| f in files && IsCsv(f) && DateOf(f) == d;
      }
      assert files[0] in files;
    }
    DescendingUnique(ds, [date]);
  }

  /** Once a day's snapshot is on disk, that day is offered by the viewer. */
  lemma SavedDateIsOffered(files: seq<string>, symbol: string, date: string)
    requires '_' !in date && '.' !in date
    requires SnapshotName(symbol, date) in files
    ensures date in AvailableDates(files)
  {
    DateOfSnapshotName(symbol, date);
  }

  /** The raw-data directory: each snapshot file name and the series stored in it. */
  class RawDataDir {
    var files: map<string, Series>

    constructor ()
      ensures files == map[]
    {
      files := map[];
    }

    /** Writes one snapshot, replacing any file of the same name. */
    method Save(symbol: string, date: string, s: Series)
      modifies this
      ensures files == old(files)[SnapshotName(symbol, date) := s]
    {
      files := files[SnapshotName(symbol, date) := s];
    }

    /**
      Reads both assets' snapshots for a date, BTC first; the first name that
      is missing is the error.
    */
    function LoadFrozen(date: string): (r: Result<(Series, Series), string>)
      reads this
      ensures r.Ok? <==> SnapshotName(BtcSymbol, date) in files && SnapshotName(EthSymbol, date) in files
      ensures r.Ok? ==> r.value == (files[SnapshotName(BtcSymbol, date)], files[SnapshotName(EthSymbol, date)])
      ensures r.Err? ==> r.error !in files
      ensures r.Err? ==> r.error == SnapshotName(BtcSymbol, date) || r.error == SnapshotName(EthSymbol, date)
      ensures SnapshotName(BtcSymbol, date) !in files ==> r == Err(SnapshotName(BtcSymbol, date))
    {
      var btcName, ethName := SnapshotName(BtcSymbol, date), SnapshotName(EthSymbol, date);
      if btcName !in files then Err(btcName)
      else if ethName !in files then Err(ethName)
      else Ok((files[btcName], files[ethName]))
    }

    /**
      Freezes a live fetch: both series are written under the day's names and
      a later frozen view of that day reads back exactly these series.
    */
    method SaveLive(date: string, btc: Series, eth: Series)
      modifies this
      ensures files == old(files)[SnapshotName(BtcSymbol, date) := btc][SnapshotName(EthSymbol, date) := eth]
      ensures LoadFrozen(date) == Ok((btc, eth))
    {
      Save(BtcSymbol, date, btc);
      Save(EthSymbol, date, eth);
      SnapshotNamesDiffer(date, date);
    }
  }
}
