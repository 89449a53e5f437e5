/**
 * The play-test enlarger (app/docs/make_large_playtest.py): the data rows of a
 * CSV file are written once per year of a fixed list, the year prefix of each
 * row's first field shifted from the first year to the current one.
 */
module Playtest {
  import opened Wrappers
  import opened Seqs
  import opened Text
  import opened Decimal

  /** The years, in output order; the first is the year the input rows carry. */
  const YEARS: seq<int> := [2024, 2023, 2022, 2021, 2020]

  /**
   * change_year: when the first field starts with the old year, its first
   * occurrence of the old year becomes the new year; every other row and field
   * is left as it is.
   */
  function ChangeYear(row: seq<string>, oldYear: int, newYear: int): (r: seq<string>)
    ensures |r| == |row|
    ensures |row| > 0 ==> r[1..] == row[1..]
    ensures |row| == 0 || !StartsWith(row[0], IntToString(oldYear)) ==> r == row
    ensures |row| > 0 && StartsWith(row[0], IntToString(oldYear)) ==>
              r[0] == IntToString(newYear) + row[0][|IntToString(oldYear)|..]
  {
    if |row| > 0 && StartsWith(row[0], IntToString(oldYear)) then
      ReplaceFirstAtStart(row[0], IntToString(oldYear), IntToString(newYear));
      [ReplaceFirst(row[0], IntToString(oldYear), IntToString(newYear))] + row[1..]
    else row
  }

  /** Shifting a row to its own year changes nothing. */
  lemma ChangeYearSameYear(row: seq<string>, year: int)
    ensures ChangeYear(row, year, year) == row
  {
    if |row| > 0 && StartsWith(row[0], IntToString(year)) {
      var y := IntToString(year);
      assert y + row[0][|y|..] == row[0];
      assert row == [row[0]] + row[1..];
    }
  }

  /** Shifting to another year and back restores a row whose first field started with the first year. */
  lemma {:induction false} ChangeYearRoundTrip(row: seq<string>, oldYear: int, newYear: int)
    requires |row| > 0
    ensures StartsWith(row[0], IntToString(oldYear)) ==>
              ChangeYear(ChangeYear(row, oldYear, newYear), newYear, oldYear) == row
  {
    var o, n := IntToString(oldYear), IntToString(newYear);
    if StartsWith(row[0], o) {
      var shifted := ChangeYear(row, oldYear, newYear);
      assert shifted[0] == n + row[0][|o|..];
      assert StartsWith(shifted[0], n);
      assert shifted[0][|n|..] == row[0][|o|..];
      var back := ChangeYear(shifted, newYear, oldYear);
      assert back[0] == o + row[0][|o|..] == row[0];
      assert back == [back[0]] + back[1..];
      assert row == [row[0]] + row[1..];
    }
  }

  /** The rows written for one year: every data row shifted from `base` to `year`, in input order. */
  function YearBlock(data: seq<seq<string>>, base: int, year: int): (r: seq<seq<string>>)
    ensures |r| == |data|
  {
    if |data| == 0 then [] else [ChangeYear(data[0], base, year)] + YearBlock(data[1..], base, year)
  }

  /** Row j of a year block is data row j shifted to that year. */
  lemma {:induction false} YearBlockAt(data: seq<seq<string>>, base: int, year: int, j: nat)
    requires j < |data|
    ensures YearBlock(data, base, year)[j] == ChangeYear(data[j], base, year)
    decreases j
  {
    if j > 0 {
      YearBlockAt(data[1..], base, year, j - 1);
    }
  }

  /** The year blocks for `years`, in list order. */
  function Blocks(data: seq<seq<string>>, base: int, years: seq<int>): (r: seq<seq<seq<string>>>)
    ensures |r| == |years|
    ensures forall k :: 0 <= k < |years| ==> |r[k]| == |data|
  {
    if |years| == 0 then [] else [YearBlock(data, base, years[0])] + Blocks(data, base, years[1..])
  }

  /** Block k is the block for years[k]. */
  lemma {:induction false} BlockAt(data: seq<seq<string>>, base: int, years: seq<int>, k: nat)
    requires k < |years|
    ensures Blocks(data, base, years)[k] == YearBlock(data, base, years[k])
    decreases k
  {
    if k > 0 {
      BlockAt(data, base, years[1..], k - 1);
    }
  }

  /**
   * main without the file I/O: the header, then one block per year. None stands
   * for the IndexError an empty input raises at `reader[0]`.
   */
  function Expand(rows: seq<seq<string>>, years: seq<int>): (r: Option<seq<seq<string>>>)
    requires |years| > 0
    ensures r.None? <==> |rows| == 0
    ensures r.Some? ==> |r.value| == 1 + Times(|years|, |rows| - 1) && r.value[0] == rows[0]
  {
    if |rows| == 0 then None
    else
      var blocks := Blocks(rows[1..], years[0], years);
      ConcatLength(blocks, |rows| - 1);
      Some([rows[0]] + Concat(blocks))
  }

  /** The output is the header once plus one row per year and data row. */
  lemma ExpandLength(rows: seq<seq<string>>)
    requires |rows| > 0
    ensures |Expand(rows, YEARS).value| == 1 + |YEARS| * (|rows| - 1)
  {
    TimesIsProduct(|YEARS|, |rows| - 1);
  }

  /** Row j of year k sits at index 1 + Times(k, |data|) + j of the output. */
  lemma ExpandIndex(rows: seq<seq<string>>, years: seq<int>, k: nat, j: nat)
    requires |rows| > 0 && k < |years| && j < |rows| - 1
    ensures 1 + Times(k, |rows| - 1) + j < |Expand(rows, years).value|
    ensures Expand(rows, years).value[1 + Times(k, |rows| - 1) + j] == ChangeYear(rows[1 + j], years[0], years[k])
  {
    var data := rows[1..];
    var all := Concat(Blocks(data, years[0], years));
    ExpandUnfolds(rows, years);
    BlocksAt(data, years[0], years, k, j);
    assert |data| == |rows| - 1 && data[j] == rows[1 + j];
    var idx := Times(k, |rows| - 1) + j;
    var e := Expand(rows, years).value;
    assert e == [rows[0]] + all;
    assert e[1 + idx] == all[idx];
  }

  lemma ExpandUnfolds(rows: seq<seq<string>>, years: seq<int>)
    requires |rows| > 0 && |years| > 0
    ensures Expand(rows, years).value == [rows[0]] + Concat(Blocks(rows[1..], years[0], years))
  {
  }

  /** Row j of the block for years[k] sits at Times(k, |data|) + j of the blocks joined. */
  lemma BlocksAt(data: seq<seq<string>>, base: int, years: seq<int>, k: nat, j: nat)
    requires k < |years| && j < |data|
    ensures Times(k, |data|) + j < |Concat(Blocks(data, base, years))|
    ensures Concat(Blocks(data, base, years))[Times(k, |data|) + j] == ChangeYear(data[j], base, years[k])
  {
    var blocks := Blocks(data, base, years);
    ConcatUniform(blocks, |data|, k, j);
    BlockAt(data, base, years, k);
    YearBlockAt(data, base, years[k], j);
  }

  /** The script's output: data row j of year k at index 1 + k * |data| + j, shifted to that year. */
  lemma ExpandLayout(rows: seq<seq<string>>, k: nat, j: nat)
    requires |rows| > 0 && k < |YEARS| && j < |rows| - 1
    ensures 1 + k * (|rows| - 1) + j < |Expand(rows, YEARS).value|
    ensures Expand(rows, YEARS).value[1 + k * (|rows| - 1) + j] == ChangeYear(rows[1 + j], 2024, YEARS[k])
  {
    ExpandIndex(rows, YEARS, k, j);
    TimesIsProduct(k, |rows| - 1);
    var e := Expand(rows, YEARS).value;
    var i1 := 1 + Times(k, |rows| - 1) + j;
    assert i1 == 1 + k * (|rows| - 1) + j;
    assert YEARS[0] == 2024;
    assert e[i1] == ChangeYear(rows[1 + j], 2024, YEARS[k]);
  }

  /** The first block, for the first year in the list, is the data verbatim. */
  lemma ExpandFirstBlockVerbatim(rows: seq<seq<string>>, j: nat)
    requires |rows| > 0 && j < |rows| - 1
    ensures Expand(rows, YEARS).value[1 + j] == rows[1 + j]
  {
    ExpandLayout(rows, 0, j);
    ChangeYearSameYear(rows[1 + j], 2024);
  }
}
