/**
 * CSV export and import of activities. A CSV line is modelled as its list of
 * fields: the reader library that splits lines, the date formatter and the
 * text normaliser are parameters. Field escaping follows section 2 (rules 6
 * and 7) of RFC 4180, and `ParseRecord` reads a record back under that rule.
 */
module Csv {
  import opened Wrappers
  import opened Seqs
  import opened Text
  import opened Decimal
  import opened Entities

  // ---------------------------------------------------------------------------
  // Field escaping and its inverse.
  // ---------------------------------------------------------------------------

  /** A field that must be quoted: it holds a comma, a double quote or a line feed. */
  predicate NeedsQuoting(f: string)
  {
    ',' in f || '"' in f || '\n' in f
  }

  /** Every double quote written twice (`replace("\"", "\"\"")`). */
  function DoubleQuotes(f: string): (r: string)
    ensures |r| >= |f|
    ensures '"' !in f ==> r == f
  {
    if |f| == 0 then ""
    else (if f[0] == '"' then "\"\"" else [f[0]]) + DoubleQuotes(f[1..])
  }

  /** escapeCSVField: a field needing quotes is wrapped in quotes with its quotes doubled. */
  function EscapeField(f: string): (r: string)
    ensures NeedsQuoting(f) ==> |r| >= 2 && r[0] == '"' && r[|r| - 1] == '"'
  {
    if NeedsQuoting(f) then "\"" + DoubleQuotes(f) + "\"" else f
  }

  /** Inside a quoted field every double quote is one of a doubled pair. */
  predicate QuotesPaired(s: string)
    decreases |s|
  {
    if |s| == 0 then true
    else if s[0] == '"' then |s| >= 2 && s[1] == '"' && QuotesPaired(s[2..])
    else QuotesPaired(s[1..])
  }

  lemma {:induction false} DoubleQuotesPaired(f: string)
    ensures QuotesPaired(DoubleQuotes(f))
  {
    if |f| > 0 {
      DoubleQuotesPaired(f[1..]);
      var d := DoubleQuotes(f);
      if f[0] == '"' {
        assert d[2..] == DoubleQuotes(f[1..]);
      } else {
        assert d[1..] == DoubleQuotes(f[1..]);
      }
    }
  }

  /** A field is left as it is exactly when it needs no quoting. */
  lemma EscapeFieldIdentity(f: string)
    ensures EscapeField(f) == f <==> !NeedsQuoting(f)
    ensures NeedsQuoting(f) ==> QuotesPaired(EscapeField(f)[1..|EscapeField(f)| - 1])
  {
    if NeedsQuoting(f) {
      var r := EscapeField(f);
      assert r[1..|r| - 1] == DoubleQuotes(f);
      DoubleQuotesPaired(f);
    }
  }

  /**
   * The rest of a quoted field after its opening quote: the content with pairs
   * of quotes read as one, and the text after the closing quote; None when the
   * closing quote is missing.
   */
  function ParseQuoted(s: string): (r: Option<(string, string)>)
    ensures r.Some? ==> |r.value.1| < |s|
  {
    if |s| == 0 then None
    else if s[0] == '"' then
      if |s| >= 2 && s[1] == '"' then
        match ParseQuoted(s[2..])
        case None => None
        case Some(p) => Some(("\"" + p.0, p.1))
      else Some(("", s[1..]))
    else
      match ParseQuoted(s[1..])
      case None => None
      case Some(p) => Some(([s[0]] + p.0, p.1))
  }

  /** An unquoted field: the text up to the first comma, and the rest from that comma on. */
  function ParseUnquoted(s: string): (r: (string, string))
    ensures r.0 + r.1 == s
    ensures ',' !in r.0
    ensures |r.1| > 0 ==> r.1[0] == ','
  {
    if |s| == 0 || s[0] == ',' then ("", s)
    else
      var p := ParseUnquoted(s[1..]);
      ([s[0]] + p.0, p.1)
  }

  /** The first field of a record and the text after it. */
  function FirstField(s: string): (r: Option<(string, string)>)
    ensures r.Some? ==> |r.value.1| <= |s|
  {
    if |s| > 0 && s[0] == '"' then ParseQuoted(s[1..])
    else Some(ParseUnquoted(s))
  }

  /** The fields of one CSV record under RFC 4180; None when a quoted field is malformed. */
  function ParseRecord(s: string): (r: Option<seq<string>>)
    ensures r.Some? ==> |r.value| >= 1
    decreases |s|
  {
    match FirstField(s)
    case None => None
    case Some(p) =>
      if p.1 == "" then Some([p.0])
      else if p.1[0] != ',' then None
      else
        match ParseRecord(p.1[1..])
        case None => None
        case Some(rest) => Some([p.0] + rest)
  }

  /** Fields escaped and joined by commas (`joinToString(",") { escapeCSVField(it) }`). */
  function RenderRecord(fields: seq<string>): string
    requires |fields| >= 1
  {
    if |fields| == 1 then EscapeField(fields[0])
    else EscapeField(fields[0]) + "," + RenderRecord(fields[1..])
  }

  lemma {:induction false} ParseQuotedDoubled(g: string, rest: string)
    requires |rest| > 0 ==> rest[0] == ','
    ensures ParseQuoted(DoubleQuotes(g) + "\"" + rest) == Some((g, rest))
  {
    if |g| > 0 {
      ParseQuotedDoubled(g[1..], rest);
      ParseQuotedDoubledStep(g, rest);
    } else {
      ParseQuotedClose(rest);
    }
  }

  /** One step of reading back a doubled field: its first character, then the rest as read. */
  lemma ParseQuotedDoubledStep(g: string, rest: string)
    requires |g| > 0
    requires ParseQuoted(DoubleQuotes(g[1..]) + "\"" + rest) == Some((g[1..], rest))
    ensures ParseQuoted(DoubleQuotes(g) + "\"" + rest) == Some((g, rest))
  {
    var tail := DoubleQuotes(g[1..]) + "\"" + rest;
    var head := if g[0] == '"' then "\"\"" else [g[0]];
    assert DoubleQuotes(g) == head + DoubleQuotes(g[1..]);
    assert DoubleQuotes(g) + "\"" + rest == head + tail by {
      assert head + DoubleQuotes(g[1..]) + "\"" + rest == head + (DoubleQuotes(g[1..]) + "\"" + rest);
    }
    if g[0] == '"' {
      ParseQuotedPair(tail);
      assert "\"" + g[1..] == g;
    } else {
      ParseQuotedChar(g[0], tail);
      assert [g[0]] + g[1..] == g;
    }
  }

  /** A doubled quote inside a quoted field reads as one quote. */
  lemma ParseQuotedPair(tail: string)
    ensures ParseQuoted("\"\"" + tail) == (match ParseQuoted(tail)
                                           case None => None
                                           case Some(p) => Some(("\"" + p.0, p.1)))
  {
    var s := "\"\"" + tail;
    assert s[0] == '"' && s[1] == '"' && s[2..] == tail;
  }

  /** Any other character inside a quoted field is kept. */
  lemma ParseQuotedChar(c: char, tail: string)
    requires c != '"'
    ensures ParseQuoted([c] + tail) == (match ParseQuoted(tail)
                                      case None => None
                                      case Some(p) => Some(([c] + p.0, p.1)))
  {
    var s := [c] + tail;
    assert s[0] == c && s[1..] == tail;
  }

  /** A quote not followed by another closes the field. */
  lemma ParseQuotedClose(rest: string)
    requires |rest| > 0 ==> rest[0] == ','
    ensures ParseQuoted("\"" + rest) == Some(("", rest))
  {
    var s := "\"" + rest;
    assert s[0] == '"' && s[1..] == rest;
  }

  lemma {:induction false} ParseUnquotedPlain(f: string, rest: string)
    requires ',' !in f
    requires |rest| > 0 ==> rest[0] == ','
    ensures ParseUnquoted(f + rest) == (f, rest)
  {
    if |f| > 0 {
      assert (f + rest)[1..] == f[1..] + rest;
      assert ',' !in f[1..];
      ParseUnquotedPlain(f[1..], rest);
      assert f == [f[0]] + f[1..];
    } else {
      assert f + rest == rest;
    }
  }

  /** An escaped field followed by a comma or the end of the record is read back as the field. */
  lemma ParseFirstField(f: string, rest: string)
    requires |rest| > 0 ==> rest[0] == ','
    ensures FirstField(EscapeField(f) + rest) == Some((f, rest))
  {
    if NeedsQuoting(f) {
      ParseFirstQuoted(f, rest);
    } else {
      ParseFirstPlain(f, rest);
    }
  }

  lemma ParseFirstQuoted(f: string, rest: string)
    requires |rest| > 0 ==> rest[0] == ','
    requires NeedsQuoting(f)
    ensures FirstField(EscapeField(f) + rest) == Some((f, rest))
  {
    var q := DoubleQuotes(f) + "\"" + rest;
    var s := EscapeField(f) + rest;
    assert s == "\"" + q;
    assert s[0] == '"' && s[1..] == q;
    ParseQuotedDoubled(f, rest);
  }

  lemma ParseFirstPlain(f: string, rest: string)
    requires |rest| > 0 ==> rest[0] == ','
    requires !NeedsQuoting(f)
    ensures FirstField(EscapeField(f) + rest) == Some((f, rest))
  {
    var s := f + rest;
    ParseUnquotedPlain(f, rest);
    assert |f| > 0 ==> s[0] == f[0];
    assert |f| == 0 ==> s == rest;
  }

  /** Reading a rendered record gives back its fields: escaping loses nothing. */
  lemma {:induction false} ParseRenderRecord(fields: seq<string>)
    requires |fields| >= 1
    ensures ParseRecord(RenderRecord(fields)) == Some(fields)
  {
    if |fields| == 1 {
      ParseFirstField(fields[0], "");
      assert EscapeField(fields[0]) + "" == RenderRecord(fields);
      ParseRecordLast(RenderRecord(fields), fields[0]);
      assert [fields[0]] == fields;
    } else {
      var body := RenderRecord(fields[1..]);
      ParseFirstField(fields[0], "," + body);
      assert RenderRecord(fields) == EscapeField(fields[0]) + ("," + body);
      ParseRenderRecord(fields[1..]);
      ParseRecordCons(RenderRecord(fields), fields[0], body, fields[1..]);
      assert [fields[0]] + fields[1..] == fields;
    }
  }

  /** A first field that ends the text is the whole record. */
  lemma ParseRecordLast(s: string, f: string)
    requires FirstField(s) == Some((f, ""))
    ensures ParseRecord(s) == Some([f])
  {
  }

  /** A first field followed by a comma heads the record read from after the comma. */
  lemma ParseRecordCons(s: string, f: string, body: string, tail: seq<string>)
    requires FirstField(s) == Some((f, "," + body))
    requires ParseRecord(body) == Some(tail)
    ensures ParseRecord(s) == Some([f] + tail)
  {
    var rest := "," + body;
    assert rest != "" && rest[0] == ',' && rest[1..] == body;
  }

  /** Unquoting a single escaped field recovers it. */
  function UnescapeField(s: string): (r: string)
  {
    match ParseRecord(s)
    case Some(fs) => if |fs| == 1 then fs[0] else s
    case None => s
  }

  lemma UnescapeEscapeField(f: string)
    ensures UnescapeField(EscapeField(f)) == f
  {
    ParseRenderRecord([f]);
  }

  // ---------------------------------------------------------------------------
  // Header.
  // ---------------------------------------------------------------------------

  const HEADER: seq<string> := ["DateTime", "Length", "ActivityType", "Piece", "Level", "PerformanceType", "Notes"]

  /** validateHeader: at least six columns, the first six named as the export names them. */
  function ValidateHeader(header: seq<string>): (ok: bool)
    ensures ok <==> |header| >= 6 && header[..6] == HEADER[..6]
  {
    |header| >= 6
    && header[0] == "DateTime" && header[1] == "Length" && header[2] == "ActivityType"
    && header[3] == "Piece" && header[4] == "Level" && header[5] == "PerformanceType"
  }

  /** The exported header passes the import's header check. */
  lemma ExportHeaderAccepted()
    ensures ValidateHeader(HEADER)
  {
  }

  // ---------------------------------------------------------------------------
  // Export.
  // ---------------------------------------------------------------------------

  /** `ActivityType.toString()` / `valueOf`. */
  function TypeName(t: ActivityType): (s: string)
  {
    match t
    case PRACTICE => "PRACTICE"
    case PERFORMANCE => "PERFORMANCE"
  }

  function TypeOfName(s: string): (r: Option<ActivityType>)
    ensures r.Some? <==> s == "PRACTICE" || s == "PERFORMANCE"
    ensures r.Some? ==> TypeName(r.value) == s
  {
    if s == "PRACTICE" then Some(PRACTICE)
    else if s == "PERFORMANCE" then Some(PERFORMANCE)
    else None
  }

  lemma TypeNameRoundTrip(t: ActivityType)
    ensures TypeOfName(TypeName(t)) == Some(t)
  {
  }

  /** The seven fields written for one activity of a known piece. */
  function ExportRow(a: Activity, p: PieceOrTechnique, formatDate: int -> string,
                     normalizeName: string -> string, normalizeNotes: string -> string): (row: seq<string>)
    ensures |row| == |HEADER|
  {
    [formatDate(a.timestamp), IntToString(a.minutes), TypeName(a.activityType),
     normalizeName(p.name), IntToString(a.level), a.performanceType, normalizeNotes(a.notes)]
  }

  /** exportActivitiesToCsv, as the list of records written: activities of unknown pieces are skipped. */
  function ExportRows(acts: seq<Activity>, pieces: map<int, PieceOrTechnique>, formatDate: int -> string,
                      normalizeName: string -> string, normalizeNotes: string -> string): (rows: seq<seq<string>>)
    ensures |rows| <= |acts|
    ensures forall i :: 0 <= i < |rows| ==> |rows[i]| == |HEADER|
  {
    if |acts| == 0 then []
    else
      var rest := ExportRows(acts[1..], pieces, formatDate, normalizeName, normalizeNotes);
      if acts[0].pieceOrTechniqueId in pieces then
        [ExportRow(acts[0], pieces[acts[0].pieceOrTechniqueId], formatDate, normalizeName, normalizeNotes)] + rest
      else rest
  }

  function ExportCsv(acts: seq<Activity>, pieces: map<int, PieceOrTechnique>, formatDate: int -> string,
                     normalizeName: string -> string, normalizeNotes: string -> string): (rows: seq<seq<string>>)
    ensures |rows| >= 1 && rows[0] == HEADER
  {
    [HEADER] + ExportRows(acts, pieces, formatDate, normalizeName, normalizeNotes)
  }

  /** The text written: each record rendered and ended by a line feed. */
  function ExportText(rows: seq<seq<string>>): string
    requires forall i :: 0 <= i < |rows| ==> |rows[i]| >= 1
  {
    if |rows| == 0 then "" else RenderRecord(rows[0]) + "\n" + ExportText(rows[1..])
  }

  function Known(pieces: map<int, PieceOrTechnique>): Activity -> bool
  {
    (a: Activity) => a.pieceOrTechniqueId in pieces
  }

  /**
   * Exactly the activities whose piece is known are written, in input order,
   * each as the row for its piece.
   */
  lemma {:induction false} ExportRowsSpec(acts: seq<Activity>, pieces: map<int, PieceOrTechnique>, formatDate: int -> string,
                                          normalizeName: string -> string, normalizeNotes: string -> string)
    ensures var rows := ExportRows(acts, pieces, formatDate, normalizeName, normalizeNotes);
            var kept := Filter(acts, Known(pieces));
            |rows| == |kept|
            && forall i :: 0 <= i < |kept| ==>
                 rows[i] == ExportRow(kept[i], pieces[kept[i].pieceOrTechniqueId], formatDate, normalizeName, normalizeNotes)
  {
    if |acts| > 0 {
      ExportRowsSpec(acts[1..], pieces, formatDate, normalizeName, normalizeNotes);
      FilterCons(acts[0], acts[1..], Known(pieces));
      assert acts == [acts[0]] + acts[1..];
    }
  }

  // ---------------------------------------------------------------------------
  // Import.
  // ---------------------------------------------------------------------------

  datatype ImportedActivity = ImportedActivity(
    timestamp: int,
    pieceName: string,
    activityType: ActivityType,
    level: int,
    performanceType: string,
    minutes: int,
    notes: string)

  datatype LineResult = Imported(activity: ImportedActivity) | LineError(message: string)

  datatype ImportResult = ImportResult(activities: seq<ImportedActivity>, uniquePieceNames: set<string>, errors: seq<string>)

  function LinePrefix(n: int): string
  {
    "Line " + IntToString(n) + ": "
  }

  /** The level range for each type: practices 1-4, performances 1-3. */
  predicate LevelInRange(t: ActivityType, level: int)
  {
    match t
    case PRACTICE => 1 <= level <= 4
    case PERFORMANCE => 1 <= level <= 3
  }

  /** A line the import accepts: every field it reads parses and the level is in range. */
  predicate AcceptedLine(row: seq<string>, parseDate: string -> Option<int>, normalizeName: string -> string)
  {
    |row| >= 6
    && parseDate(row[0]).Some?
    && ParseInt32(row[1]).Some?
    && TypeOfName(row[2]).Some?
    && normalizeName(row[3]) != ""
    && ParseInt32(row[4]).Some?
    && LevelInRange(TypeOfName(row[2]).value, ParseInt32(row[4]).value)
  }

  /** One data line of importActivitiesFromCsv: checks in order, the first failure reported. */
  function ImportLine(row: seq<string>, n: int, parseDate: string -> Option<int>,
                      normalizeName: string -> string, normalizeNotes: string -> string): (r: LineResult)
    ensures r.Imported? <==> AcceptedLine(row, parseDate, normalizeName)
    ensures r.LineError? ==> LinePrefix(n) <= r.message
    ensures |row| < 6 ==> r == LineError(LinePrefix(n) + "Invalid number of columns")
    ensures r.Imported? ==> LevelInRange(r.activity.activityType, r.activity.level)
                            && r.activity.pieceName == normalizeName(row[3]) && r.activity.pieceName != ""
  {
    var pre := LinePrefix(n);
    if |row| < 6 then LineError(pre + "Invalid number of columns")
    else
      match parseDate(row[0])
      case None => LineError(pre + "Invalid datetime format '" + row[0] + "' (expected: yyyy-MM-dd HH:mm:ss)")
      case Some(timestamp) =>
      match ParseInt32(row[1])
      case None => LineError(pre + "Invalid minutes value '" + row[1] + "'")
      case Some(minutes) =>
      match TypeOfName(row[2])
      case None => LineError(pre + "Invalid activity type '" + row[2] + "'")
      case Some(activityType) =>
      var pieceName := normalizeName(row[3]);
      if pieceName == "" then LineError(pre + "Empty piece name")
      else
      match ParseInt32(row[4])
      case None => LineError(pre + "Invalid level '" + row[4] + "'")
      case Some(level) =>
      if activityType == PRACTICE && !(1 <= level <= 4) then
        LineError(pre + "Invalid practice level " + IntToString(level) + " (must be 1-4)")
      else if activityType == PERFORMANCE && !(1 <= level <= 3) then
        LineError(pre + "Invalid performance level " + IntToString(level) + " (must be 1-3)")
      else
        var notes := if |row| > 6 then normalizeNotes(row[6]) else "";
        Imported(ImportedActivity(timestamp, pieceName, activityType, level, row[5], minutes, notes))
  }

  /** The data lines from line number n on; the piece-name set grows by each new name. */
  function ImportLines(lines: seq<seq<string>>, n: int, parseDate: string -> Option<int>,
                       normalizeName: string -> string, normalizeNotes: string -> string): (r: ImportResult)
    ensures |r.activities| + |r.errors| == |lines|
    ensures forall i :: 0 <= i < |r.activities| ==>
              LevelInRange(r.activities[i].activityType, r.activities[i].level) && r.activities[i].pieceName != ""
  {
    if |lines| == 0 then ImportResult([], {}, [])
    else
      var rest := ImportLines(lines[1..], n + 1, parseDate, normalizeName, normalizeNotes);
      match ImportLine(lines[0], n, parseDate, normalizeName, normalizeNotes)
      case LineError(m) => ImportResult(rest.activities, rest.uniquePieceNames, [m] + rest.errors)
      case Imported(a) =>
        var names := if a.pieceName in rest.uniquePieceNames then rest.uniquePieceNames
                     else rest.uniquePieceNames + {a.pieceName};
        ImportResult([a] + rest.activities, names, rest.errors)
  }

  /**
   * importActivitiesFromCsv over the records the reader yields: a missing or
   * wrong header gives the single header error; otherwise each data line,
   * numbered from 2, is imported or reported.
   */
  function ImportCsv(rows: seq<seq<string>>, parseDate: string -> Option<int>,
                     normalizeName: string -> string, normalizeNotes: string -> string): (r: ImportResult)
    ensures |rows| == 0 || !ValidateHeader(rows[0]) ==> r == ImportResult([], {}, ["Invalid CSV header format"])
    ensures |rows| > 0 && ValidateHeader(rows[0]) ==> |r.activities| + |r.errors| == |rows| - 1
  {
    if |rows| == 0 || !ValidateHeader(rows[0]) then ImportResult([], {}, ["Invalid CSV header format"])
    else ImportLines(rows[1..], 2, parseDate, normalizeName, normalizeNotes)
  }

  function PieceNameOf(a: ImportedActivity): string
  {
    a.pieceName
  }

  /**
   * The piece-name set is exactly the names of the imported activities, and
   * the imported activities are those of the accepted lines, in line order.
   */
  lemma {:induction false} ImportLinesSpec(lines: seq<seq<string>>, n: int, parseDate: string -> Option<int>,
                                           normalizeName: string -> string, normalizeNotes: string -> string)
    ensures var r := ImportLines(lines, n, parseDate, normalizeName, normalizeNotes);
            (forall x :: x in r.uniquePieceNames <==> exists i :: 0 <= i < |r.activities| && r.activities[i].pieceName == x)
            && |r.activities| == |Filter(lines, (row: seq<string>) => AcceptedLine(row, parseDate, normalizeName))|
  {
    var accepted := (row: seq<string>) => AcceptedLine(row, parseDate, normalizeName);
    if |lines| > 0 {
      ImportLinesSpec(lines[1..], n + 1, parseDate, normalizeName, normalizeNotes);
      FilterCons(lines[0], lines[1..], accepted);
      assert lines == [lines[0]] + lines[1..];
      var rest := ImportLines(lines[1..], n + 1, parseDate, normalizeName, normalizeNotes);
      var r := ImportLines(lines, n, parseDate, normalizeName, normalizeNotes);
      var line := ImportLine(lines[0], n, parseDate, normalizeName, normalizeNotes);
      if line.Imported? {
        assert r.activities == [line.activity] + rest.activities;
        forall x | x in r.uniquePieceNames
          ensures exists i :: 0 <= i < |r.activities| && r.activities[i].pieceName == x
        {
          if x != line.activity.pieceName {
            var i :| 0 <= i < |rest.activities| && rest.activities[i].pieceName == x;
            assert r.activities[i + 1].pieceName == x;
          } else {
            assert r.activities[0].pieceName == x;
          }
        }
        forall x | exists i :: 0 <= i < |r.activities| && r.activities[i].pieceName == x
          ensures x in r.uniquePieceNames
        {
          var i :| 0 <= i < |r.activities| && r.activities[i].pieceName == x;
          if i > 0 {
            assert rest.activities[i - 1].pieceName == x;
          }
        }
      }
    }
  }

  /** The outcome of an import: every line accounted for once, names as imported. */
  lemma ImportCsvSpec(rows: seq<seq<string>>, parseDate: string -> Option<int>,
                      normalizeName: string -> string, normalizeNotes: string -> string)
    requires |rows| > 0 && ValidateHeader(rows[0])
    ensures var r := ImportCsv(rows, parseDate, normalizeName, normalizeNotes);
            |r.activities| == |Filter(rows[1..], (row: seq<string>) => AcceptedLine(row, parseDate, normalizeName))|
            && |r.errors| == |rows| - 1 - |r.activities|
            && (forall x :: x in r.uniquePieceNames <==> exists i :: 0 <= i < |r.activities| && r.activities[i].pieceName == x)
            && (forall x :: x in r.uniquePieceNames ==> x != "")
  {
    ImportLinesSpec(rows[1..], 2, parseDate, normalizeName, normalizeNotes);
  }

  /**
   * An exported activity imports back as itself apart from the milliseconds
   * of its timestamp: when the date format reads back the written second,
   * the normalisers are idempotent on the written text, and the level is in
   * range, the written record is accepted and yields the same activity with
   * its timestamp cut to its second ("yyyy-MM-dd HH:mm:ss" writes none).
   */
  lemma ExportImportRoundTrip(a: Activity, p: PieceOrTechnique, n: int,
                              formatDate: int -> string, parseDate: string -> Option<int>,
                              normalizeName: string -> string, normalizeNotes: string -> string)
    requires parseDate(formatDate(a.timestamp)) == Some(ToSecond(a.timestamp))
    requires normalizeName(normalizeName(p.name)) == normalizeName(p.name) && normalizeName(p.name) != ""
    requires normalizeNotes(normalizeNotes(a.notes)) == normalizeNotes(a.notes)
    requires INT_MIN <= a.minutes <= INT_MAX
    requires LevelInRange(a.activityType, a.level)
    ensures var row := ExportRow(a, p, formatDate, normalizeName, normalizeNotes);
            ParseRecord(RenderRecord(row)) == Some(row)
            && ImportLine(row, n, parseDate, normalizeName, normalizeNotes)
               == Imported(ImportedActivity(ToSecond(a.timestamp), normalizeName(p.name), a.activityType, a.level,
                                            a.performanceType, a.minutes, normalizeNotes(a.notes)))
  {
    ParseRenderRecord(ExportRow(a, p, formatDate, normalizeName, normalizeNotes));
    ExportLineRoundTrip(a, p, n, formatDate, parseDate, normalizeName, normalizeNotes);
  }

  lemma ExportLineRoundTrip(a: Activity, p: PieceOrTechnique, n: int,
                            formatDate: int -> string, parseDate: string -> Option<int>,
                            normalizeName: string -> string, normalizeNotes: string -> string)
    requires parseDate(formatDate(a.timestamp)) == Some(ToSecond(a.timestamp))
    requires normalizeName(normalizeName(p.name)) == normalizeName(p.name) && normalizeName(p.name) != ""
    requires normalizeNotes(normalizeNotes(a.notes)) == normalizeNotes(a.notes)
    requires INT_MIN <= a.minutes <= INT_MAX
    requires LevelInRange(a.activityType, a.level)
    ensures ImportLine(ExportRow(a, p, formatDate, normalizeName, normalizeNotes), n, parseDate, normalizeName, normalizeNotes)
            == Imported(ImportedActivity(ToSecond(a.timestamp), normalizeName(p.name), a.activityType, a.level,
                                         a.performanceType, a.minutes, normalizeNotes(a.notes)))
  {
    var row := ExportRow(a, p, formatDate, normalizeName, normalizeNotes);
    assert row[0] == formatDate(a.timestamp) && row[1] == IntToString(a.minutes) && row[2] == TypeName(a.activityType);
    assert row[3] == normalizeName(p.name) && row[4] == IntToString(a.level);
    assert row[5] == a.performanceType && row[6] == normalizeNotes(a.notes);
    ParseInt32ToString(a.minutes);
    ParseInt32ToString(a.level);
  }
}
