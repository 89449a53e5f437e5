/**
 * The historical spreadsheet converter (app/docs/convert_historical_data.py):
 * a wide sheet whose first row holds YYYYMMDD date headers and whose other rows
 * hold a piece name followed by one activity code per date becomes a list of
 * activity rows in the app's CSV layout, sorted by timestamp.
 */
module Historical {
  import opened Wrappers
  import opened Seqs
  import opened Sorting
  import opened Text

  /** Characters that carry meaning in an activity code; everything else is noise. */
  predicate IsCodeChar(c: char)
  {
    c == 'p' || c == 'P' || c == 'a' || c == 'A' || c == 'X' || c == 'x'
  }

  /** The code with every character outside {p, P, a, A, X, x} removed. */
  function CleanCode(code: string): (r: string)
    ensures forall c :: c in r <==> c in code && IsCodeChar(c)
  {
    Filter(code, IsCodeChar)
  }

  /** The decoded tuple (activity type, level, performance type). */
  datatype Decoded = Decoded(activityType: string, level: int, performanceType: string)

  /** The highest of the practice levels a code asks for: P is 4, A is 2, p or a is 1. */
  function PracticeLevels(clean: string): (levels: seq<int>)
    ensures forall l :: l in levels ==> l == 1 || l == 2 || l == 4
    ensures |levels| > 0 <==> 'P' in clean || 'A' in clean || 'p' in clean || 'a' in clean
  {
    (if 'P' in clean then [4] else [])
    + (if 'A' in clean then [2] else [])
    + (if 'p' in clean || 'a' in clean then [1] else [])
  }

  /**
   * map_activity_code: None when no code character remains; a capital X is a
   * satisfactory performance, a small x an unsatisfactory one; otherwise the
   * highest practice level named.
   */
  function MapActivityCode(code: string): (r: Option<Decoded>)
    ensures r.None? <==> forall c :: c in code ==> !IsCodeChar(c)
    ensures 'X' in code ==> r == Some(Decoded("PERFORMANCE", 2, "practice"))
    ensures 'X' !in code && 'x' in code ==> r == Some(Decoded("PERFORMANCE", 1, "practice"))
    ensures r.Some? && r.value.activityType == "PRACTICE" ==>
              'X' !in code && 'x' !in code && r.value.performanceType == "practice"
              && (r.value.level == 1 || r.value.level == 2 || r.value.level == 4)
    ensures r.Some? ==> r.value.activityType == "PRACTICE" || r.value.activityType == "PERFORMANCE"
  {
    var clean := CleanCode(code);
    if |clean| == 0 then
      None
    else if 'X' in clean then Some(Decoded("PERFORMANCE", 2, "practice"))
    else if 'x' in clean then Some(Decoded("PERFORMANCE", 1, "practice"))
    else
      var levels := PracticeLevels(clean);
      assert clean[0] in clean;
      if |levels| > 0 then
        assert MaxOpt(levels).value in levels;
        Some(Decoded("PRACTICE", MaxOpt(levels).value, "practice"))
      else
        None
  }

  /** The practice level of a practice code is the highest level any of its letters names. */
  lemma {:induction false} PracticeLevelIsHighest(code: string)
    requires MapActivityCode(code).Some? && MapActivityCode(code).value.activityType == "PRACTICE"
    ensures 'P' in code ==> MapActivityCode(code).value.level == 4
    ensures 'P' !in code && 'A' in code ==> MapActivityCode(code).value.level == 2
    ensures 'P' !in code && 'A' !in code ==> MapActivityCode(code).value.level == 1
  {
    var clean := CleanCode(code);
    var levels := PracticeLevels(clean);
    assert 'P' in code <==> 'P' in clean;
    assert 'A' in code <==> 'A' in clean;
    if 'P' in clean {
      assert 4 in levels;
    } else if 'A' in clean {
      assert 2 in levels;
    }
  }

  /** Decoding depends only on the code characters: cleaning first changes nothing. */
  lemma {:induction false} MapActivityCodeIgnoresNoise(code: string)
    ensures MapActivityCode(CleanCode(code)) == MapActivityCode(code)
  {
    var clean := CleanCode(code);
    var twice := CleanCode(clean);
    assert forall c :: c in twice <==> c in clean;
    assert PracticeLevels(twice) == PracticeLevels(clean);
  }

  /** parse_date: an eight-character YYYYMMDD string becomes YYYY-MM-DD; other strings pass through. */
  function ParseDate(s: string): (r: string)
    ensures |s| == 8 ==> |r| == 10 && r[4] == '-' && r[7] == '-'
    ensures |s| != 8 ==> r == s
  {
    if |s| == 8 then s[..4] + "-" + s[4..6] + "-" + s[6..8] else s
  }

  /** Removing the two dashes of a reformatted date recovers the header it came from. */
  lemma {:induction false} ParseDateRoundTrip(s: string)
    requires |s| == 8
    ensures var r := ParseDate(s); r[..4] + r[5..7] + r[8..] == s
  {
    var r := ParseDate(s);
    assert r[..4] == s[..4];
    assert r[5..7] == s[4..6];
    assert r[8..] == s[6..8];
    assert s == s[..4] + s[4..6] + s[6..8];
  }

  /** One output row: DateTime, Length, ActivityType, Piece, Level, PerformanceType, Notes. */
  datatype OutRow = OutRow(
    dateTime: string,
    length: string,
    activityType: string,
    piece: string,
    level: int,
    performanceType: string,
    notes: string)

  /** The date column headers: the first row without its leading name column. */
  function DateHeaders(rows: seq<seq<string>>): seq<string>
    requires |rows| > 0
  {
    if |rows[0]| == 0 then [] else rows[0][1..]
  }

  /** A header names a date when, trimmed, it is eight digits. */
  predicate IsDateHeader(h: string)
  {
    IsDigits(Trim(h)) && |Trim(h)| == 8
  }

  /** The row a decodable cell produces, at 13:00 on the header's date. */
  function MakeRow(piece: string, header: string, d: Decoded): OutRow
  {
    OutRow(ParseDate(Trim(header)) + " 13:00:00", "-1", d.activityType, piece, d.level, d.performanceType, "")
  }

  /** What the inner loop body does with one cell: skip it, fail on it, or emit a row. */
  datatype CellOutcome = Skip | Fail | Emit(row: OutRow)

  /**
   * One pass of the inner loop: a blank cell is skipped; a cell past the last
   * header raises IndexError; a cell under a header that is not an eight-digit
   * date, or whose code does not decode, is skipped; anything else is emitted.
   */
  function CellStep(piece: string, headers: seq<string>, cell: string, col: nat): (o: CellOutcome)
    ensures o.Fail? <==> !IsBlank(cell) && col >= |headers|
    ensures o.Emit? <==> (!IsBlank(cell) && col < |headers| && IsDateHeader(headers[col])
                          && MapActivityCode(Trim(cell)).Some?)
    ensures o.Emit? ==> o.row == MakeRow(piece, headers[col], MapActivityCode(Trim(cell)).value)
  {
    if IsBlank(cell) then Skip
    else if col >= |headers| then Fail
    else if !IsDateHeader(headers[col]) then Skip
    else
      var decoded := MapActivityCode(Trim(cell));
      if decoded.None? then Skip else Emit(MakeRow(piece, headers[col], decoded.value))
  }

  /** The outcomes of the inner loop body on a row's cells from column `col` on. */
  function OutcomesFrom(piece: string, headers: seq<string>, cells: seq<string>, col: nat): (r: seq<CellOutcome>)
    requires col <= |cells|
    decreases |cells| - col
    ensures |r| == |cells| - col
    ensures forall k :: 0 <= k < |r| ==> r[k] == CellStep(piece, headers, cells[col + k], col + k)
  {
    if col == |cells| then []
    else
      var rest := OutcomesFrom(piece, headers, cells, col + 1);
      var r := [CellStep(piece, headers, cells[col], col)] + rest;
      assert forall k :: 0 <= k < |r| ==> r[k] == CellStep(piece, headers, cells[col + k], col + k) by {
        forall k | 0 <= k < |r|
          ensures r[k] == CellStep(piece, headers, cells[col + k], col + k)
        {
          if k > 0 {
            assert r[k] == rest[k - 1];
            assert col + 1 + (k - 1) == col + k;
          }
        }
      }
      r
  }

  /** The outer loop skips a missing row and a row whose name is blank. */
  predicate SkippedRow(row: seq<string>)
  {
    |row| == 0 || IsBlank(row[0])
  }

  /** The outcomes of every cell the two loops visit, from data row `i` on, in visiting order. */
  function SheetOutcomes(headers: seq<string>, rows: seq<seq<string>>, i: nat): (r: seq<CellOutcome>)
    requires i <= |rows|
    decreases |rows| - i
  {
    if i == |rows| then []
    else if SkippedRow(rows[i]) then SheetOutcomes(headers, rows, i + 1)
    else OutcomesFrom(Trim(rows[i][0]), headers, rows[i][1..], 0) + SheetOutcomes(headers, rows, i + 1)
  }

  /** Running the loop bodies in order: emitted rows accumulate, and the first failure aborts. */
  function Collect(outs: seq<CellOutcome>): (r: Option<seq<OutRow>>)
  {
    if |outs| == 0 then Some([])
    else
      var rest := Collect(outs[1..]);
      match outs[0]
      case Skip => rest
      case Fail => None
      case Emit(row) => if rest.None? then None else Some([row] + rest.value)
  }

  /** The outcomes of every visited cell of a sheet, whose first row holds the headers. */
  function Sheet(rows: seq<seq<string>>): seq<CellOutcome>
    requires |rows| > 0
  {
    SheetOutcomes(DateHeaders(rows), rows, 1)
  }

  /** Orders output rows by their DateTime string. */
  function RowKey(r: OutRow): string
  {
    r.dateTime
  }

  /** convert_csv without the file I/O: the walk, then a stable sort on the timestamp string. None means the script raises. */
  function ConvertCsv(rows: seq<seq<string>>): (r: Option<seq<OutRow>>)
  {
    if |rows| == 0 then None
    else
      var walked := Collect(Sheet(rows));
      if walked.None? then None else Some(SortBy(walked.value, ByStringKey(RowKey)))
  }

  // ---------------------------------------------------------------------------
  // What the collected walk contains.

  predicate IsEmit(o: CellOutcome)
  {
    o.Emit?
  }

  function RowOrBlank(o: CellOutcome): OutRow
  {
    if o.Emit? then o.row else OutRow("", "", "", "", 0, "", "")
  }

  /** The walk fails iff some visited cell fails; otherwise it yields the emitted rows in visiting order. */
  lemma {:induction false} CollectSpec(outs: seq<CellOutcome>)
    ensures Collect(outs).None? <==> exists k :: 0 <= k < |outs| && outs[k].Fail?
    ensures Collect(outs).Some? ==> Collect(outs).value == Map(Filter(outs, IsEmit), RowOrBlank)
  {
    if |outs| > 0 {
      CollectSpec(outs[1..]);
      FilterCons(outs[0], outs[1..], IsEmit);
      assert outs == [outs[0]] + outs[1..];
      if outs[0].Emit? {
        MapCons(outs[0], Filter(outs[1..], IsEmit), RowOrBlank);
      }
      if exists k :: 0 <= k < |outs[1..]| && outs[1..][k].Fail? {
        var k :| 0 <= k < |outs[1..]| && outs[1..][k].Fail?;
        assert outs[k + 1].Fail?;
      }
      if exists k :: 0 <= k < |outs| && outs[k].Fail? {
        var k :| 0 <= k < |outs| && outs[k].Fail?;
        if k > 0 {
          assert outs[1..][k - 1].Fail?;
        }
      }
    }
  }

  /** A row is emitted exactly when a visited cell's outcome emits it. */
  lemma CollectMembership(outs: seq<CellOutcome>, row: OutRow)
    requires Collect(outs).Some?
    ensures row in Collect(outs).value <==> Emit(row) in outs
  {
    CollectSpec(outs);
    var kept := Filter(outs, IsEmit);
    var mapped := Map(kept, RowOrBlank);
    if row in mapped {
      var k :| 0 <= k < |mapped| && mapped[k] == row;
      assert kept[k].Emit?;
      FilterMembership(outs, IsEmit, kept[k]);
    }
    if Emit(row) in outs {
      FilterMembership(outs, IsEmit, Emit(row));
      var k :| 0 <= k < |kept| && kept[k] == Emit(row);
      assert mapped[k] == row;
    }
  }

  /** A cell of the sheet: data row `row`, date column `col` (0 is the first date). */
  predicate VisitedCell(rows: seq<seq<string>>, row: nat, col: nat)
  {
    1 <= row < |rows| && !SkippedRow(rows[row]) && col + 1 < |rows[row]|
  }

  /** The outcome the inner loop body gives a visited cell. */
  function OutcomeAt(rows: seq<seq<string>>, row: nat, col: nat): CellOutcome
    requires VisitedCell(rows, row, col)
  {
    CellStep(Trim(rows[row][0]), DateHeaders(rows), rows[row][col + 1], col)
  }

  /** The outcomes of one visited row are those of its cells. */
  lemma RowOutcomesCells(rows: seq<seq<string>>, i: nat, o: CellOutcome)
    requires 1 <= i < |rows| && !SkippedRow(rows[i])
    ensures o in OutcomesFrom(Trim(rows[i][0]), DateHeaders(rows), rows[i][1..], 0)
        <==> RowHas(rows, i, o)
  {
    var here := OutcomesFrom(Trim(rows[i][0]), DateHeaders(rows), rows[i][1..], 0);
    if o in here {
      var k :| 0 <= k < |here| && here[k] == o;
      assert rows[i][1..][k] == rows[i][k + 1];
      assert VisitedCell(rows, i, k) && OutcomeAt(rows, i, k) == o;
    }
    if RowHas(rows, i, o) {
      var col: nat :| VisitedCell(rows, i, col) && OutcomeAt(rows, i, col) == o;
      assert rows[i][1..][col] == rows[i][col + 1];
      assert here[col] == o;
    }
  }

  /** Row `i` has a visited cell whose outcome is `o`. */
  ghost predicate RowHas(rows: seq<seq<string>>, i: nat, o: CellOutcome)
  {
    exists col: nat :: VisitedCell(rows, i, col) && OutcomeAt(rows, i, col) == o
  }

  /** Some row from `i` on has a visited cell whose outcome is `o`. */
  ghost predicate VisitedFrom(rows: seq<seq<string>>, i: nat, o: CellOutcome)
    decreases |rows| - i
  {
    i < |rows| && (RowHas(rows, i, o) || VisitedFrom(rows, i + 1, o))
  }

  /** A visited cell in row `row` or later makes VisitedFrom hold. */
  lemma {:induction false} VisitedFromIntro(rows: seq<seq<string>>, i: nat, o: CellOutcome, row: nat, col: nat)
    requires i <= row && VisitedCell(rows, row, col) && OutcomeAt(rows, row, col) == o
    decreases row - i
    ensures VisitedFrom(rows, i, o)
  {
    if row == i {
      assert RowHas(rows, i, o);
    } else {
      VisitedFromIntro(rows, i + 1, o, row, col);
    }
  }

  /** VisitedFrom names a visited cell in row `i` or later. */
  lemma {:induction false} VisitedFromElim(rows: seq<seq<string>>, i: nat, o: CellOutcome)
    requires VisitedFrom(rows, i, o)
    decreases |rows| - i
    ensures exists row: nat, col: nat :: i <= row && VisitedCell(rows, row, col) && OutcomeAt(rows, row, col) == o
  {
    if RowHas(rows, i, o) {
      var col: nat :| VisitedCell(rows, i, col) && OutcomeAt(rows, i, col) == o;
      assert i <= i;
    } else {
      VisitedFromElim(rows, i + 1, o);
      var row: nat, col: nat :| i + 1 <= row && VisitedCell(rows, row, col) && OutcomeAt(rows, row, col) == o;
      assert i <= row;
    }
  }

  /** Every visited cell's outcome occurs in the sheet's outcomes, and every outcome there is some visited cell's. */
  lemma {:induction false} SheetOutcomesCells(rows: seq<seq<string>>, i: nat, o: CellOutcome)
    requires 1 <= i <= |rows|
    decreases |rows| - i
    ensures o in SheetOutcomes(DateHeaders(rows), rows, i) <==> VisitedFrom(rows, i, o)
  {
    var headers := DateHeaders(rows);
    if i < |rows| {
      SheetOutcomesCells(rows, i + 1, o);
      var rest := SheetOutcomes(headers, rows, i + 1);
      if SkippedRow(rows[i]) {
        assert SheetOutcomes(headers, rows, i) == rest;
        assert !RowHas(rows, i, o);
      } else {
        var here := OutcomesFrom(Trim(rows[i][0]), headers, rows[i][1..], 0);
        assert SheetOutcomes(headers, rows, i) == here + rest;
        RowOutcomesCells(rows, i, o);
      }
    }
  }

  /**
   * The script fails exactly when some visited cell holds a non-blank code past
   * the last header; otherwise the output has one row per emitting cell.
   */
  lemma {:induction false} ConvertCsvSpec(rows: seq<seq<string>>)
    requires |rows| > 0
    ensures ConvertCsv(rows).None? <==> exists k :: 0 <= k < |Sheet(rows)| && Sheet(rows)[k].Fail?
    ensures ConvertCsv(rows).Some? ==> |ConvertCsv(rows).value| == |Filter(Sheet(rows), IsEmit)|
    ensures ConvertCsv(rows).Some? ==>
              multiset(ConvertCsv(rows).value) == multiset(Map(Filter(Sheet(rows), IsEmit), RowOrBlank))
  {
    var outs := Sheet(rows);
    CollectSpec(outs);
    assert ConvertCsv(rows).None? <==> Collect(outs).None?;
    if ConvertCsv(rows).Some? {
      var walked := Collect(outs).value;
      assert ConvertCsv(rows).value == SortBy(walked, ByStringKey(RowKey));
      assert |walked| == |Filter(outs, IsEmit)|;
    }
  }

  /** The script fails exactly when some visited cell has a non-blank code and lies past the last header. */
  lemma {:induction false} ConvertCsvFailsIff(rows: seq<seq<string>>)
    requires |rows| > 0
    ensures ConvertCsv(rows).None? <==>
              exists row: nat, col: nat :: VisitedCell(rows, row, col) && !IsBlank(rows[row][col + 1])
                                           && col >= |DateHeaders(rows)|
  {
    var outs := Sheet(rows);
    ConvertCsvSpec(rows);
    SheetOutcomesCells(rows, 1, Fail);
    if exists k :: 0 <= k < |outs| && outs[k].Fail? {
      var k :| 0 <= k < |outs| && outs[k].Fail?;
      assert Fail in outs;
      VisitedFromElim(rows, 1, Fail);
      var row: nat, col: nat :| 1 <= row && VisitedCell(rows, row, col) && OutcomeAt(rows, row, col) == Fail;
      assert !IsBlank(rows[row][col + 1]) && col >= |DateHeaders(rows)|;
    }
    if exists row: nat, col: nat :: VisitedCell(rows, row, col) && !IsBlank(rows[row][col + 1])
                                    && col >= |DateHeaders(rows)| {
      var row: nat, col: nat :| VisitedCell(rows, row, col) && !IsBlank(rows[row][col + 1])
                                && col >= |DateHeaders(rows)|;
      assert OutcomeAt(rows, row, col) == Fail;
      VisitedFromIntro(rows, 1, Fail, row, col);
      assert Fail in outs;
      var k :| 0 <= k < |outs| && outs[k] == Fail;
      assert outs[k].Fail?;
    }
  }

  /** The output holds exactly the rows that visited cells emit. */
  lemma {:induction false} ConvertCsvMembership(rows: seq<seq<string>>, r: OutRow)
    requires |rows| > 0 && ConvertCsv(rows).Some?
    ensures r in ConvertCsv(rows).value <==>
              exists row: nat, col: nat :: VisitedCell(rows, row, col) && OutcomeAt(rows, row, col) == Emit(r)
  {
    var outs := Sheet(rows);
    var walked := Collect(outs).value;
    assert ConvertCsv(rows).value == SortBy(walked, ByStringKey(RowKey));
    assert r in ConvertCsv(rows).value <==> r in multiset(walked);
    CollectMembership(outs, r);
    SheetOutcomesCells(rows, 1, Emit(r));
    if exists row: nat, col: nat :: VisitedCell(rows, row, col) && OutcomeAt(rows, row, col) == Emit(r) {
      var row: nat, col: nat :| VisitedCell(rows, row, col) && OutcomeAt(rows, row, col) == Emit(r);
      VisitedFromIntro(rows, 1, Emit(r), row, col);
    }
    if r in ConvertCsv(rows).value {
      VisitedFromElim(rows, 1, Emit(r));
    }
  }

  /** A visited cell's emitted row has the fixed shape: 13:00 on a reformatted date, no length, no notes. */
  lemma {:induction false} EmittedRowShape(rows: seq<seq<string>>, row: nat, col: nat)
    requires VisitedCell(rows, row, col) && OutcomeAt(rows, row, col).Emit?
    ensures var r := OutcomeAt(rows, row, col).row;
            r.length == "-1" && r.notes == "" && r.performanceType == "practice"
            && (exists d :: IsDateHeader(d) && r.dateTime == ParseDate(Trim(d)) + " 13:00:00")
            && r.piece != "" && !IsBlank(r.piece)
            && (r.activityType == "PRACTICE" ==> r.level == 1 || r.level == 2 || r.level == 4)
            && (r.activityType == "PERFORMANCE" ==> r.level == 1 || r.level == 2)
  {
    var headers := DateHeaders(rows);
    var code := Trim(rows[row][col + 1]);
    TrimNonBlank(rows[row][0]);
    var d := MapActivityCode(code).value;
    assert IsDateHeader(headers[col]);
    if d.activityType == "PERFORMANCE" {
      assert 'X' in code || 'x' in code;
    }
  }

  /** Trimming a non-blank string leaves a non-blank, non-empty string. */
  lemma {:induction false} TrimNonBlank(s: string)
    requires !IsBlank(s)
    ensures Trim(s) != "" && !IsBlank(Trim(s))
  {
    BlankIffTrimEmpty(s);
    var t := Trim(s);
    assert !IsWhitespace(t[0]);
  }

  /** The output is ordered by timestamp string. */
  lemma {:induction false} ConvertCsvSorted(rows: seq<seq<string>>)
    requires |rows| > 0 && ConvertCsv(rows).Some?
    ensures SortedBy(ConvertCsv(rows).value, ByStringKey(RowKey))
  {
    ByStringKeyTotalPreorder(RowKey);
    SortBySorted(Collect(Sheet(rows)).value, ByStringKey(RowKey));
  }

  /** Rows with the same timestamp keep the order in which the walk produced them. */
  lemma {:induction false} ConvertCsvStable(rows: seq<seq<string>>, z: OutRow)
    requires |rows| > 0 && ConvertCsv(rows).Some?
    ensures Filter(ConvertCsv(rows).value, EquivTo(ByStringKey(RowKey), z))
         == Filter(Collect(Sheet(rows)).value, EquivTo(ByStringKey(RowKey), z))
  {
    ByStringKeyTotalPreorder(RowKey);
    SortByStable(Collect(Sheet(rows)).value, ByStringKey(RowKey), z);
  }

  /** Two rows are equivalent under the sort key exactly when their timestamps are equal. */
  lemma {:induction false} SameKeyIffEquivalent(y: OutRow, z: OutRow)
    ensures EquivTo(ByStringKey(RowKey), z)(y) <==> y.dateTime == z.dateTime
  {
    var le := ByStringKey(RowKey);
    assert le(y, z) == LexLe(RowKey(y), RowKey(z));
    assert le(z, y) == LexLe(RowKey(z), RowKey(y));
    assert RowKey(y) == y.dateTime && RowKey(z) == z.dateTime;
    if LexLe(y.dateTime, z.dateTime) && LexLe(z.dateTime, y.dateTime) {
      LexLeAntisymmetric(y.dateTime, z.dateTime);
    }
    if y.dateTime == z.dateTime {
      LexLeTotal(y.dateTime, y.dateTime);
    }
  }
}
