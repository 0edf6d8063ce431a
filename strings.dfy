/**
  The string operations the tracker applies to file names: Python's ordering of
  `str` values, `endswith`, and the two halves of `split` it uses
  (`s.split(c)[-1]` and `s.split(c)[0]`).
*/
module Strings {

  /**
    Python's `a < b` on `str`: lexicographic by code point, where a proper
    prefix comes first. `sorted(..., reverse=True)` orders by this relation.
  */
  predicate Less(a: string, b: string)
    ensures |a| < |b| && a == b[..|a|] ==> Less(a, b)
    decreases |a|
  {
    if |a| == 0 then |b| > 0
    else if |b| == 0 then false
    else if a[0] != b[0] then a[0] < b[0]
    else Less(a[1..], b[1..])
  }

  lemma {:induction false} LessIrreflexive(a: string)
    ensures !Less(a, a)
    decreases |a|
  {
    if |a| > 0 {
      LessIrreflexive(a[1..]);
    }
  }

  lemma {:induction false} LessTransitive(a: string, b: string, c: string)
    requires Less(a, b) && Less(b, c)
    ensures Less(a, c)
    decreases |a|
  {
    if |a| > 0 && |b| > 0 && |c| > 0 && a[0] == b[0] && b[0] == c[0] {
      LessTransitive(a[1..], b[1..], c[1..]);
    }
  }

  /** Any two different strings are ordered one way or the other. */
  lemma {:induction false} LessTotal(a: string, b: string)
    requires a != b
    ensures Less(a, b) || Less(b, a)
    decreases |a|
  {
    if |a| > 0 && |b| > 0 && a[0] == b[0] {
      assert a == [a[0]] + a[1..] && b == [b[0]] + b[1..];
      LessTotal(a[1..], b[1..]);
    }
  }

  lemma LessAsymmetric(a: string, b: string)
    requires Less(a, b)
    ensures !Less(b, a)
  {
    if Less(b, a) {
      LessTransitive(a, b, a);
      LessIrreflexive(a);
    }
  }

  /** Python's `s.endswith(suffix)`. */
  predicate EndsWith(s: string, suffix: string)
    ensures EndsWith(s, suffix) <==> |suffix| <= |s| && s == s[..|s| - |suffix|] + suffix
  {
    |suffix| <= |s| && s[|s| - |suffix|..] == suffix
  }

  /**
    Python's `s.split(c)[-1]`: the longest suffix of `s` free of `c`, that is,
    everything after the last `c`, or all of `s` when `c` does not occur.
  */
  function AfterLast(s: string, c: char): (r: string)
    ensures c !in r
    ensures |r| <= |s| && r == s[|s| - |r|..]
    ensures |r| < |s| ==> s[|s| - |r| - 1] == c
    decreases |s|
  {
    if s == [] then []
    else if s[|s| - 1] == c then []
    else
      var init, last := s[..|s| - 1], s[|s| - 1];
      var r := AfterLast(init, c);
      assert s == init + [last];
      SuffixOfSnoc(init, last, c, r);
      r + [last]
  }

  /** Appending a character other than `c` to a string extends its `c`-free suffix by that character. */
  lemma SuffixOfSnoc(init: string, last: char, c: char, r: string)
    requires last != c && c !in r
    requires |r| <= |init| && r == init[|init| - |r|..]
    requires |r| < |init| ==> init[|init| - |r| - 1] == c
    ensures var s, r' := init + [last], r + [last];
      c !in r' && |r'| <= |s| && r' == s[|s| - |r'|..] && (|r'| < |s| ==> s[|s| - |r'| - 1] == c)
  {
    var s := init + [last];
    assert s[|s| - |r| - 1..] == init[|init| - |r|..] + [last];
    if |r| < |init| {
      assert s[|s| - |r| - 2] == init[|init| - |r| - 1];
    }
  }

  /**
    Python's `s.split(c)[0]`: the longest prefix of `s` free of `c`, that is,
    everything before the first `c`, or all of `s` when `c` does not occur.
  */
  function BeforeFirst(s: string, c: char): (r: string)
    ensures c !in r
    ensures |r| <= |s| && r == s[..|r|]
    ensures |r| < |s| ==> s[|r|] == c
    decreases |s|
  {
    if s == [] then []
    else if s[0] == c then []
    else [s[0]] + BeforeFirst(s[1..], c)
  }

  /** What follows the last separator is recovered exactly when it holds no separator itself. */
  lemma {:induction false} AfterLastOfJoin(p: string, c: char, q: string)
    requires c !in q
    ensures AfterLast(p + [c] + q, c) == q
    decreases |q|
  {
    var s := p + [c] + q;
    if q != [] {
      var q' := q[..|q| - 1];
      assert s[..|s| - 1] == p + [c] + q';
      AfterLastOfJoin(p, c, q');
      assert q == q' + [q[|q| - 1]];
    }
  }

  /** What precedes the first separator is recovered exactly when it holds no separator itself. */
  lemma BeforeFirstOfJoin(q: string, c: char, p: string)
    requires c !in q
    ensures BeforeFirst(q + [c] + p, c) == q
  {
    var s := q + [c] + p;
    var r := BeforeFirst(s, c);
    assert s[|q|] == c;
    assert forall k :: 0 <= k < |r| ==> s[k] == r[k];
    assert forall k :: 0 <= k < |q| ==> s[k] == q[k];
    assert |r| == |q|;
    assert s[..|q|] == q;
  }
}
