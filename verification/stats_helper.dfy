/**
 * The piece-statistics helper: the JSON text a list of timestamps is stored as,
 * the "three most recent" list, and the average practice level. The JSON
 * library is modelled by the compact form it writes for a list of longs,
 * `[t1,t2,...]`, and a reader that accepts exactly that form.
 */
module StatsHelper {
  import opened Wrappers
  import opened Seqs
  import opened Sorting
  import opened Text
  import opened Decimal

  // ---------------------------------------------------------------------------
  // The JSON form of a list of longs.
  // ---------------------------------------------------------------------------

  predicate InLongRange(xs: seq<int>)
  {
    forall i :: 0 <= i < |xs| ==> LONG_MIN <= xs[i] <= LONG_MAX
  }

  /** The elements in decimal, separated by commas. */
  function Join(xs: seq<int>): (s: string)
    ensures |xs| > 0 ==> |s| > 0
  {
    if |xs| == 0 then ""
    else if |xs| == 1 then IntToString(xs[0])
    else IntToString(xs[0]) + "," + Join(xs[1..])
  }

  /** The JSON array text of a list of longs. */
  function EncodeLongs(xs: seq<int>): (s: string)
    ensures |s| >= 2 && s[0] == '[' && s[|s| - 1] == ']'
  {
    "[" + Join(xs) + "]"
  }

  /** The pieces of `s` between commas; a string without commas is one piece. */
  function SplitComma(s: string): (r: seq<string>)
    ensures |r| >= 1
    ensures forall i :: 0 <= i < |r| ==> ',' !in r[i]
  {
    if |s| == 0 then [""]
    else if s[0] == ',' then [""] + SplitComma(s[1..])
    else
      var rest := SplitComma(s[1..]);
      [[s[0]] + rest[0]] + rest[1..]
  }

  /** Every piece read as a long, or None if one of them is not a long. */
  function ParseLongs(parts: seq<string>): (r: Option<seq<int>>)
    ensures r.Some? ==> |r.value| == |parts| && InLongRange(r.value)
    ensures r.Some? ==> forall i :: 0 <= i < |parts| ==> ParseInt64(parts[i]) == Some(r.value[i])
    ensures r.None? ==> exists i :: 0 <= i < |parts| && ParseInt64(parts[i]).None?
  {
    if |parts| == 0 then Some([])
    else
      match ParseInt64(parts[0])
      case None => None
      case Some(v) =>
        match ParseLongs(parts[1..])
        case None => None
        case Some(rest) => Some([v] + rest)
  }

  /** Reads a JSON array of longs; None stands for a parse failure or a JSON null. */
  function DecodeLongs(s: string): (r: Option<seq<int>>)
    ensures r.Some? ==> InLongRange(r.value)
    ensures r.Some? ==> |s| >= 2 && s[0] == '[' && s[|s| - 1] == ']'
  {
    if |s| >= 2 && s[0] == '[' && s[|s| - 1] == ']' then
      var body := s[1..|s| - 1];
      if body == "" then Some([]) else ParseLongs(SplitComma(body))
    else None
  }

  /** timestampsToJson: no text for an empty list, the JSON array otherwise. */
  function TimestampsToJson(ts: seq<int>): (r: Option<string>)
    ensures r.None? <==> |ts| == 0
  {
    if |ts| == 0 then None else Some(EncodeLongs(ts))
  }

  /** jsonToTimestamps: the empty list for a null, empty or unreadable text. */
  function JsonToTimestamps(json: Option<string>): (r: seq<int>)
    ensures json.None? || json.value == "" ==> r == []
    ensures json.Some? && DecodeLongs(json.value).None? ==> r == []
    ensures json.Some? && DecodeLongs(json.value).Some? ==> r == DecodeLongs(json.value).value
    ensures InLongRange(r)
  {
    if json.None? || json.value == "" then []
    else
      match DecodeLongs(json.value)
      case None => []
      case Some(xs) => xs
  }

  lemma NoCommaInIntToString(x: int)
    ensures ',' !in IntToString(x)
  {
    var s := IntToString(x);
    if x >= 0 {
      assert IsDigits(NatToString(x));
    } else {
      assert s == "-" + NatToString(-x);
      assert IsDigits(NatToString(-x));
      assert forall i :: 1 <= i < |s| ==> s[i] == NatToString(-x)[i - 1];
    }
  }

  lemma {:induction false} SplitCommaNoComma(a: string)
    requires ',' !in a
    ensures SplitComma(a) == [a]
  {
    if |a| > 0 {
      assert ',' !in a[1..];
      SplitCommaNoComma(a[1..]);
      assert a == [a[0]] + a[1..];
    }
  }

  /** Splitting at the first comma peels off the text before it. */
  lemma {:induction false} SplitCommaCons(a: string, b: string)
    requires ',' !in a
    ensures SplitComma(a + "," + b) == [a] + SplitComma(b)
  {
    if |a| == 0 {
      assert a + "," + b == [','] + b;
      assert ([','] + b)[1..] == b;
    } else {
      assert ',' !in a[1..];
      SplitCommaCons(a[1..], b);
      assert (a + "," + b)[1..] == a[1..] + "," + b;
      assert a == [a[0]] + a[1..];
    }
  }

  /** The pieces of a joined list are the decimal forms of its elements. */
  lemma {:induction false} SplitCommaJoin(xs: seq<int>)
    requires |xs| > 0
    ensures SplitComma(Join(xs)) == Map(xs, IntToString)
  {
    NoCommaInIntToString(xs[0]);
    if |xs| == 1 {
      SplitCommaNoComma(IntToString(xs[0]));
    } else {
      SplitCommaCons(IntToString(xs[0]), Join(xs[1..]));
      SplitCommaJoin(xs[1..]);
    }
  }

  lemma {:induction false} ParseLongsOfStrings(xs: seq<int>)
    requires InLongRange(xs)
    ensures ParseLongs(Map(xs, IntToString)) == Some(xs)
  {
    if |xs| > 0 {
      ParseIntToString(xs[0]);
      assert Map(xs, IntToString)[1..] == Map(xs[1..], IntToString);
      ParseLongsOfStrings(xs[1..]);
      assert xs == [xs[0]] + xs[1..];
    }
  }

  /** Reading back the JSON text of a list of longs gives the list. */
  lemma DecodeEncodeLongs(xs: seq<int>)
    requires InLongRange(xs)
    ensures DecodeLongs(EncodeLongs(xs)) == Some(xs)
  {
    var s := EncodeLongs(xs);
    assert s[1..|s| - 1] == Join(xs);
    if |xs| > 0 {
      SplitCommaJoin(xs);
      ParseLongsOfStrings(xs);
    }
  }

  /**
   * Storing a list of timestamps and reading it back gives the list, the empty
   * list included: it is stored as no text and read back as empty.
   */
  lemma TimestampsRoundTrip(ts: seq<int>)
    requires InLongRange(ts)
    ensures JsonToTimestamps(TimestampsToJson(ts)) == ts
  {
    if |ts| > 0 {
      DecodeEncodeLongs(ts);
    }
  }

  // ---------------------------------------------------------------------------
  // The three most recent timestamps.
  // ---------------------------------------------------------------------------

  /** The largest values first (`sortedDescending`). */
  function Descending(xs: seq<int>): (r: seq<int>)
    ensures |r| == |xs| && multiset(r) == multiset(xs)
  {
    SortBy(xs, GeInt)
  }

  predicate IsDescending(xs: seq<int>)
  {
    forall i, j :: 0 <= i < j < |xs| ==> xs[i] >= xs[j]
  }

  /** The at most k largest values of `xs`, largest first. */
  function TopK(xs: seq<int>, k: nat): (r: seq<int>)
  {
    Take(Descending(xs), k)
  }

  /** addTimestampToRecent: add the new timestamp and keep the three latest. */
  function AddTimestampToRecent(existing: Option<string>, t: int): (r: Option<string>)
    requires LONG_MIN <= t <= LONG_MAX
    ensures r.Some?
  {
    TimestampsToJson(TopK(JsonToTimestamps(existing) + [t], 3))
  }

  /**
   * TopK keeps min(k, |xs|) of the values, largest first, and every value it
   * drops is at most every value it keeps.
   */
  lemma TopKSpec(xs: seq<int>, k: nat)
    ensures var r := TopK(xs, k);
            |r| == (if k <= |xs| then k else |xs|)
            && IsDescending(r)
            && multiset(r) <= multiset(xs)
            && forall x, y :: x in multiset(xs) - multiset(r) && y in r ==> x <= y
  {
    var s := Descending(xs);
    GeIntTotalPreorder();
    SortBySorted(xs, GeInt);
    var n := if k <= |s| then k else |s|;
    var r := TopK(xs, k);
    assert r == s[..n];
    assert s == s[..n] + s[n..];
    assert multiset(s) == multiset(s[..n]) + multiset(s[n..]);
    forall x, y | x in multiset(xs) - multiset(r) && y in r
      ensures x <= y
    {
      assert x in multiset(s[n..]);
      var j :| 0 <= j < |s[n..]| && s[n..][j] == x;
      var i :| 0 <= i < n && s[i] == y;
      assert GeInt(s[i], s[n + j]);
    }
  }

  /**
   * The stored result of addTimestampToRecent is never null, and it reads back
   * as the (at most) three largest of the stored timestamps and the new one,
   * latest first.
   */
  lemma AddTimestampToRecentSpec(existing: Option<string>, t: int)
    requires LONG_MIN <= t <= LONG_MAX
    ensures var all := JsonToTimestamps(existing) + [t];
            var kept := JsonToTimestamps(AddTimestampToRecent(existing, t));
            kept == TopK(all, 3)
            && |kept| == (if |all| <= 3 then |all| else 3)
            && IsDescending(kept)
            && multiset(kept) <= multiset(all)
            && forall x, y :: x in multiset(all) - multiset(kept) && y in kept ==> x <= y
  {
    var all := JsonToTimestamps(existing) + [t];
    var top := TopK(all, 3);
    assert InLongRange(all);
    TopKSpec(all, 3);
    assert forall i :: 0 <= i < |top| ==> top[i] in multiset(all);
    TimestampsRoundTrip(top);
  }

  /**
   * Adding timestamps one at a time keeps the same three as taking the three
   * largest of everything: the incremental update agrees with a recount.
   */
  lemma TopKSnoc(xs: seq<int>, t: int, k: nat)
    ensures TopK(TopK(xs, k) + [t], k) == TopK(xs + [t], k)
  {
    SortBySnoc(xs, t, GeInt);
    SortBySnoc(TopK(xs, k), t, GeInt);
    GeIntTotalPreorder();
    SortBySorted(xs, GeInt);
    SortBySortedIdentity(TopK(xs, k), GeInt);
    TakeInsert(t, Descending(xs), GeInt, k);
  }

  // ---------------------------------------------------------------------------
  // The average practice level.
  // ---------------------------------------------------------------------------

  function IsPositive(x: int): bool
  {
    x > 0
  }

  /**
   * calculateAverageLevel: the mean of the positive levels, or null when there
   * are none. The result is a real number, not a 32-bit float.
   */
  function AverageLevel(levels: seq<int>): (r: Option<real>)
    ensures r.None? <==> forall i :: 0 <= i < |levels| ==> levels[i] <= 0
  {
    var valid := Filter(levels, IsPositive);
    FilterNonEmpty(levels, IsPositive);
    if |valid| == 0 then None else Some(Sum(valid) as real / |valid| as real)
  }

  lemma {:induction false} SumBounds(s: seq<int>, m: nat)
    requires forall i :: 0 <= i < |s| ==> 1 <= s[i] <= m
    ensures |s| <= Sum(s) <= Times(|s|, m)
  {
    if |s| > 0 {
      SumBounds(s[1..], m);
    }
  }

  /** A present average lies between 1 and the largest level averaged. */
  lemma AverageLevelBounds(levels: seq<int>, m: int)
    requires forall i :: 0 <= i < |levels| ==> levels[i] <= m
    ensures AverageLevel(levels).Some? ==> 1.0 <= AverageLevel(levels).value <= m as real
  {
    var valid := Filter(levels, IsPositive);
    if |valid| > 0 {
      forall i | 0 <= i < |valid|
        ensures 1 <= valid[i] <= m
      {
        assert valid[i] in levels;
      }
      assert 1 <= valid[0] <= m;
      SumBounds(valid, m);
      TimesIsProduct(|valid|, m);
      assert AverageLevel(levels) == Some(Sum(valid) as real / |valid| as real);
      MeanBounds(Sum(valid), |valid|, m);
    }
  }

  lemma MeanBounds(total: int, n: int, m: int)
    requires n > 0 && n <= total <= n * m
    ensures 1.0 <= total as real / n as real <= m as real
  {
    var t, r := total as real, n as real;
    assert (n * m) as real == r * m as real;
    assert t / r * r == t;
  }
}
