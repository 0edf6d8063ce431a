/**
  Combining the BTC and ETH series into one frame: an outer join on the
  timestamp index (`pd.concat([...], axis=1)`), then a forward fill and a
  backward fill of each column (`data.ffill().bfill()`).
*/
module Alignment {
  import opened Wrappers
  import opened Prices

  /** A column of the joined frame: a price, or nothing where its series has no row. */
  type Column = seq<Option<real>>

  /**
    The index of the outer join: the sorted union of two increasing indexes,
    each timestamp once.
  */
  function UnionIndex(xs: seq<int>, ys: seq<int>): (r: seq<int>)
    requires Increasing(xs) && Increasing(ys)
    ensures Increasing(r)
    ensures forall t :: t in r <==> t in xs || t in ys
    decreases |xs| + |ys|
  {
    if xs == [] then ys
    else if ys == [] then xs
    else if xs[0] < ys[0] then
      var rest := UnionIndex(xs[1..], ys);
      assert forall t :: t in rest ==> xs[0] < t by {
        forall t | t in rest ensures xs[0] < t {
          if t in ys {
            var k :| 0 <= k < |ys| && ys[k] == t;
          } else {
            var k :| 1 <= k < |xs| && xs[k] == t;
          }
        }
      }
      ConsIncreasing(xs[0], rest);
      [xs[0]] + rest
    else if ys[0] < xs[0] then
      var rest := UnionIndex(xs, ys[1..]);
      assert forall t :: t in rest ==> ys[0] < t by {
        forall t | t in rest ensures ys[0] < t {
          if t in xs {
            var k :| 0 <= k < |xs| && xs[k] == t;
          } else {
            var k :| 1 <= k < |ys| && ys[k] == t;
          }
        }
      }
      ConsIncreasing(ys[0], rest);
      [ys[0]] + rest
    else
      var rest := UnionIndex(xs[1..], ys[1..]);
      assert forall t :: t in rest ==> xs[0] < t by {
        forall t | t in rest ensures xs[0] < t {
          if t in xs[1..] {
            var k :| 1 <= k < |xs| && xs[k] == t;
          } else {
            var k :| 1 <= k < |ys| && ys[k] == t;
          }
        }
      }
      ConsIncreasing(xs[0], rest);
      [xs[0]] + rest
  }

  lemma ConsIncreasing(x: int, rest: seq<int>)
    requires Increasing(rest)
    requires forall t :: t in rest ==> x < t
    ensures Increasing([x] + rest)
  {
    var r := [x] + rest;
    forall i, j | 0 <= i < j < |r|
      ensures r[i] < r[j]
    {
      assert r[j] == rest[j - 1] && rest[j - 1] in rest;
      if i > 0 {
        assert r[i] == rest[i - 1];
      }
    }
  }

  /** The price a series holds at timestamp t, if it has a row there. */
  function PriceAt(s: Series, t: int): (r: Option<real>)
    ensures r.None? <==> t !in Times(s)
    ensures r.Some? ==> PricePoint(t, r.value) in s
    decreases |s|
  {
    if s == [] then None
    else if s[0].time == t then Some(s[0].price)
    else
      var r := PriceAt(s[1..], t);
      assert Times(s) == [s[0].time] + Times(s[1..]);
      r
  }

  /** In a series with an increasing index, every row is what `PriceAt` finds at its timestamp. */
  lemma {:induction false} PriceAtFindsRow(s: Series, p: PricePoint)
    requires Increasing(Times(s)) && p in s
    ensures PriceAt(s, p.time) == Some(p.price)
    decreases |s|
  {
    if s[0] != p {
      var k :| 1 <= k < |s| && s[k] == p;
      assert Times(s)[0] < Times(s)[k];
      assert Increasing(Times(s[1..])) by {
        assert forall i :: 0 <= i < |s| - 1 ==> Times(s[1..])[i] == Times(s)[i + 1];
      }
      PriceAtFindsRow(s[1..], p);
    }
  }

  /** The outer join of the two series: the union index and each series' price on it. */
  datatype Joined = Joined(index: seq<int>, btc: Column, eth: Column)

  function Reindex(s: Series, index: seq<int>): Column
  {
    seq(|index|, i requires 0 <= i < |index| => PriceAt(s, index[i]))
  }

  /**
    `pd.concat([btc, eth], axis=1)`: the index is the sorted union of both
    indexes, and each column holds its series' price wherever that series has
    a row at the timestamp, and nothing elsewhere.
  */
  function Join(btc: Series, eth: Series): (j: Joined)
    requires Increasing(Times(btc)) && Increasing(Times(eth))
    ensures |j.btc| == |j.index| && |j.eth| == |j.index|
    ensures Increasing(j.index)
    ensures forall t :: t in j.index <==> t in Times(btc) || t in Times(eth)
    ensures forall i :: 0 <= i < |j.index| ==> (j.btc[i].Some? <==> j.index[i] in Times(btc))
    ensures forall i :: 0 <= i < |j.index| ==> (j.eth[i].Some? <==> j.index[i] in Times(eth))
    ensures forall i :: 0 <= i < |j.index| && j.btc[i].Some? ==> PricePoint(j.index[i], j.btc[i].value) in btc
    ensures forall i :: 0 <= i < |j.index| && j.eth[i].Some? ==> PricePoint(j.index[i], j.eth[i].value) in eth
  {
    var index := UnionIndex(Times(btc), Times(eth));
    Joined(index, Reindex(btc, index), Reindex(eth, index))
  }

  /** No price is lost or changed by the join: each row of the BTC series is in the BTC column. */
  lemma JoinKeepsBtcRows(btc: Series, eth: Series, p: PricePoint)
    requires Increasing(Times(btc)) && Increasing(Times(eth))
    requires p in btc
    ensures exists i :: 0 <= i < |Join(btc, eth).index| && Join(btc, eth).index[i] == p.time && Join(btc, eth).btc[i] == Some(p.price)
  {
    var j := Join(btc, eth);
    var k :| 0 <= k < |btc| && btc[k] == p;
    assert p.time in Times(btc) by {
      assert Times(btc)[k] == p.time;
    }
    var i :| 0 <= i < |j.index| && j.index[i] == p.time;
    PriceAtFindsRow(btc, p);
  }

  /** The same for the ETH series and column. */
  lemma JoinKeepsEthRows(btc: Series, eth: Series, p: PricePoint)
    requires Increasing(Times(btc)) && Increasing(Times(eth))
    requires p in eth
    ensures exists i :: 0 <= i < |Join(btc, eth).index| && Join(btc, eth).index[i] == p.time && Join(btc, eth).eth[i] == Some(p.price)
  {
    var j := Join(btc, eth);
    var k :| 0 <= k < |eth| && eth[k] == p;
    assert p.time in Times(eth) by {
      assert Times(eth)[k] == p.time;
    }
    var i :| 0 <= i < |j.index| && j.index[i] == p.time;
    PriceAtFindsRow(eth, p);
  }

  /**
    The value a forward fill leaves at position i: the value at i, else the
    one it left at i - 1. Nothing when every position up to i is empty.
  */
  function LastSeen(col: Column, i: nat): (r: Option<real>)
    requires i < |col|
    ensures r.None? <==> forall k :: 0 <= k <= i ==> col[k].None?
  {
    if col[i].Some? then col[i]
    else if i == 0 then None
    else LastSeen(col, i - 1)
  }

  /** What the forward fill leaves at i is the nearest value at or before i. */
  lemma {:induction false} LastSeenIsNearest(col: Column, i: nat)
    requires i < |col| && LastSeen(col, i).Some?
    ensures exists k :: 0 <= k <= i && col[k] == LastSeen(col, i) && forall m :: k < m <= i ==> col[m].None?
  {
    if col[i].None? {
      LastSeenIsNearest(col, i - 1);
      var k :| 0 <= k <= i - 1 && col[k] == LastSeen(col, i - 1) && forall m :: k < m <= i - 1 ==> col[m].None?;
      assert forall m :: k < m <= i ==> col[m].None?;
    }
  }

  /**
    The value a backward fill leaves at position i: the value at i, else the
    one it left at i + 1. Nothing when every position from i on is empty.
  */
  function NextSeen(col: Column, i: nat): (r: Option<real>)
    requires i < |col|
    ensures r.None? <==> forall k :: i <= k < |col| ==> col[k].None?
    decreases |col| - i
  {
    if col[i].Some? then col[i]
    else if i == |col| - 1 then None
    else NextSeen(col, i + 1)
  }

  /** What the backward fill leaves at i is the nearest value at or after i. */
  lemma {:induction false} NextSeenIsNearest(col: Column, i: nat)
    requires i < |col| && NextSeen(col, i).Some?
    ensures exists k :: i <= k < |col| && col[k] == NextSeen(col, i) && forall m :: i <= m < k ==> col[m].None?
    decreases |col| - i
  {
    if col[i].None? {
      NextSeenIsNearest(col, i + 1);
      var k :| i + 1 <= k < |col| && col[k] == NextSeen(col, i + 1) && forall m :: i + 1 <= m < k ==> col[m].None?;
      assert forall m :: i <= m < k ==> col[m].None?;
    }
  }

  /** `Series.ffill()`: one left-to-right pass that carries the last value seen into each gap. */
  method ForwardFill(col: Column) returns (out: Column)
    ensures |out| == |col|
    ensures forall i :: 0 <= i < |col| ==> out[i] == LastSeen(col, i)
  {
    out := [];
    var carry: Option<real> := None;
    for i := 0 to |col|
      invariant |out| == i
      invariant forall k :: 0 <= k < i ==> out[k] == LastSeen(col, k)
      invariant carry == if i == 0 then None else LastSeen(col, i - 1)
    {
      if col[i].Some? {
        carry := col[i];
      }
      out := out + [carry];
    }
  }

  /** `Series.bfill()`: one right-to-left pass that carries the next value seen into each gap. */
  method BackwardFill(col: Column) returns (out: Column)
    ensures |out| == |col|
    ensures forall i :: 0 <= i < |col| ==> out[i] == NextSeen(col, i)
  {
    out := [];
    var carry: Option<real> := None;
    var i := |col|;
    while i > 0
      invariant 0 <= i <= |col|
      invariant |out| == |col| - i
      invariant forall k :: i <= k < |col| ==> out[k - i] == NextSeen(col, k)
      invariant carry == if i == |col| then None else NextSeen(col, i)
    {
      i := i - 1;
      if col[i].Some? {
        carry := col[i];
      }
      out := [carry] + out;
    }
  }

  /**
    What the two passes leave at position i: the nearest earlier value, or,
    when there is none, the nearest later one.
  */
  function Filled(col: Column, i: nat): (r: Option<real>)
    requires i < |col|
    ensures r.None? <==> forall k :: 0 <= k < |col| ==> col[k].None?
    ensures col[i].Some? ==> r == col[i]
  {
    if LastSeen(col, i).Some? then LastSeen(col, i) else NextSeen(col, i)
  }

  /**
    A backward fill of a forward-filled column finds, at each position, the
    nearest earlier value, or the nearest later one when there is none.
  */
  lemma {:induction false} BackwardAfterForward(col: Column, ff: Column, i: nat)
    requires |ff| == |col| && i < |col|
    requires forall k :: 0 <= k < |col| ==> ff[k] == LastSeen(col, k)
    ensures NextSeen(ff, i) == Filled(col, i)
    decreases |col| - i
  {
    if ff[i].None? && i < |col| - 1 {
      BackwardAfterForward(col, ff, i + 1);
      assert Filled(col, i + 1) == NextSeen(col, i + 1);
    }
  }

  /** When a column has a value anywhere, the two passes leave no gap. */
  lemma FilledHasNoGaps(col: Column, i: nat)
    requires i < |col|
    requires exists k :: 0 <= k < |col| && col[k].Some?
    ensures Filled(col, i).Some?
  {
  }

  /**
    Filling invents no price: whatever a gap receives is a value the column
    holds elsewhere, so, for a column joined from a series, one of that
    series' prices.
  */
  lemma FilledIsSomePrice(s: Series, index: seq<int>, col: Column, i: nat)
    requires |col| == |index| && i < |col|
    requires forall k :: 0 <= k < |col| && col[k].Some? ==> PricePoint(index[k], col[k].value) in s
    requires Filled(col, i).Some?
    ensures exists p :: p in s && p.price == Filled(col, i).value
  {
    if LastSeen(col, i).Some? {
      LastSeenIsNearest(col, i);
      var k :| 0 <= k <= i && col[k] == LastSeen(col, i) && forall m :: k < m <= i ==> col[m].None?;
      assert PricePoint(index[k], col[k].value) in s;
    } else {
      NextSeenIsNearest(col, i);
      var k :| i <= k < |col| && col[k] == NextSeen(col, i) && forall m :: i <= m < k ==> col[m].None?;
      assert PricePoint(index[k], col[k].value) in s;
    }
  }

  /**
    `ffill().bfill()` on one column: every gap takes the nearest earlier
    value, or the nearest later one when nothing comes before it, and a
    column with any value at all ends up with no gap.
  */
  method FillColumn(col: Column) returns (out: Column)
    ensures |out| == |col|
    ensures forall i :: 0 <= i < |col| ==> out[i] == Filled(col, i)
    ensures forall i :: 0 <= i < |col| && col[i].Some? ==> out[i] == col[i]
    ensures (exists k :: 0 <= k < |col| && col[k].Some?) ==> forall i :: 0 <= i < |col| ==> out[i].Some?
  {
    var ff := ForwardFill(col);
    out := BackwardFill(ff);
    forall i | 0 <= i < |col|
      ensures out[i] == Filled(col, i)
    {
      BackwardAfterForward(col, ff, i);
    }
    forall i | 0 <= i < |col| && exists k :: 0 <= k < |col| && col[k].Some?
      ensures out[i].Some?
    {
      FilledHasNoGaps(col, i);
    }
  }

  /** The aligned frame: both price columns complete over the union index. */
  datatype Frame = Frame(index: seq<int>, btc: seq<real>, eth: seq<real>)

  /** Drops the `Some` of a column with no gaps. */
  function Values(col: Column): (xs: seq<real>)
    requires forall i :: 0 <= i < |col| ==> col[i].Some?
    ensures |xs| == |col|
    ensures forall i :: 0 <= i < |col| ==> col[i] == Some(xs[i])
  {
    seq(|col|, i requires 0 <= i < |col| && col[i].Some? => col[i].value)
  }

  /** `ffill().bfill()` on both columns of a joined frame whose columns each hold some value. */
  method FillJoined(j: Joined) returns (f: Frame)
    requires |j.btc| == |j.index| && |j.eth| == |j.index|
    requires exists k :: 0 <= k < |j.btc| && j.btc[k].Some?
    requires exists k :: 0 <= k < |j.eth| && j.eth[k].Some?
    ensures f.index == j.index && |f.btc| == |f.index| && |f.eth| == |f.index|
    ensures forall i :: 0 <= i < |f.index| ==> Some(f.btc[i]) == Filled(j.btc, i)
    ensures forall i :: 0 <= i < |f.index| ==> Some(f.eth[i]) == Filled(j.eth, i)
    ensures forall i :: 0 <= i < |f.index| && j.btc[i].Some? ==> j.btc[i] == Some(f.btc[i])
    ensures forall i :: 0 <= i < |f.index| && j.eth[i].Some? ==> j.eth[i] == Some(f.eth[i])
  {
    var b := FillColumn(j.btc);
    var e := FillColumn(j.eth);
    f := Frame(j.index, Values(b), Values(e));
  }

  /**
    Lines 87-89 of the dashboard: join, then fill each column both ways. Both
    series must have at least one row, so that each column has a value to
    spread; the index is the sorted union of both indexes, each series' own
    prices stay where they were, and every gap holds the filled value.
  */
  method AlignAndFill(btc: Series, eth: Series) returns (f: Frame)
    requires Increasing(Times(btc)) && Increasing(Times(eth))
    requires btc != [] && eth != []
    ensures |f.btc| == |f.index| && |f.eth| == |f.index| && |f.index| > 0
    ensures f.index == Join(btc, eth).index
    ensures forall i :: 0 <= i < |f.index| ==> Some(f.btc[i]) == Filled(Join(btc, eth).btc, i)
    ensures forall i :: 0 <= i < |f.index| ==> Some(f.eth[i]) == Filled(Join(btc, eth).eth, i)
    ensures forall p :: p in btc ==> exists i :: 0 <= i < |f.index| && f.index[i] == p.time && f.btc[i] == p.price
    ensures forall p :: p in eth ==> exists i :: 0 <= i < |f.index| && f.index[i] == p.time && f.eth[i] == p.price
  {
    var j := Join(btc, eth);
    JoinKeepsBtcRows(btc, eth, btc[0]);
    JoinKeepsEthRows(btc, eth, eth[0]);
    f := FillJoined(j);
    forall p | p in btc
      ensures exists i :: 0 <= i < |f.index| && f.index[i] == p.time && f.btc[i] == p.price
    {
      JoinKeepsBtcRows(btc, eth, p);
    }
    forall p | p in eth
      ensures exists i :: 0 <= i < |f.index| && f.index[i] == p.time && f.eth[i] == p.price
    {
      JoinKeepsEthRows(btc, eth, p);
    }
  }
}
