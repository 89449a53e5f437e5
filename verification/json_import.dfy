/**
 * The JSON importer (JsonImporter.kt): validation of a parsed export and its
 * conversion back into pieces and activities. Parsing the JSON text is the
 * library's work: its outcome is the input `ParseOutcome`. The date formats
 * SimpleDateFormat accepts are the parameter `parseDate`; the current time is
 * the parameter `nowMs`.
 */
module JsonImport {
  import opened Wrappers
  import opened Seqs
  import opened Text
  import opened Decimal
  import opened Entities
  import opened JsonExport

  /** What the JSON library produced: the data, a syntax error, or another failure. */
  datatype ParseOutcome =
    | Parsed(data: ExportData)
    | SyntaxError(syntaxMessage: string)
    | OtherFailure(failureMessage: string)

  // ---------------------------------------------------------------------------
  // Timestamps.

  /**
   * parseTimestamp: nothing for an absent or blank text; otherwise the first
   * date format that reads it, and failing those the text as a decimal Long.
   */
  function ParseTimestamp(text: Option<string>, parseDate: string -> Option<int>): (r: Option<int>)
    ensures text.None? || IsBlank(text.value) ==> r.None?
    ensures text.Some? && !IsBlank(text.value) && parseDate(text.value).Some? ==> r == parseDate(text.value)
    ensures text.Some? && !IsBlank(text.value) && parseDate(text.value).None? ==> r == ParseInt64(text.value)
  {
    if text.None? || IsBlank(text.value) then None
    else if parseDate(text.value).Some? then parseDate(text.value)
    else ParseInt64(text.value)
  }

  /** A timestamp written as a decimal number is read back whatever the date formats say about it. */
  lemma ParseTimestampDecimal(t: int, parseDate: string -> Option<int>)
    requires LONG_MIN <= t <= LONG_MAX
    requires parseDate(IntToString(t)).None?
    ensures ParseTimestamp(Some(IntToString(t)), parseDate) == Some(t)
  {
    ParseIntToString(t);
    assert !IsWhitespace(IntToString(t)[|IntToString(t)| - 1]);
  }

  // ---------------------------------------------------------------------------
  // Validation.

  /** The findings of validateJson. */
  datatype ValidationError =
    | MissingVersion
    | NoContent
    | TooManyPieces(pieceCount: int, pieceLimit: int)
    | TooManyActivities(activityCount: int, activityLimit: int)
    | BlankPieceName(pieceId: int)
    | DuplicateName(name: string)
    | UnknownPieceRef(activityId: int, referencedId: int)
    | BadDate(field: string, value: string)
    | InvalidJson(syntaxMessage: string)
    | ValidationFailed(failureMessage: string)

  function ValidationMessage(e: ValidationError): string
  {
    match e
    case MissingVersion => "Missing or empty version in export info"
    case NoContent => "Export contains no pieces or activities"
    case TooManyPieces(n, limit) => "Export contains " + IntToString(n) + " pieces, but limit is " + IntToString(limit)
    case TooManyActivities(n, limit) =>
      "Export contains " + IntToString(n) + " activities, but limit is " + IntToString(limit)
    case BlankPieceName(id) => "Piece with ID " + IntToString(id) + " has blank name"
    case DuplicateName(name) => "Duplicate piece name found: '" + name + "'"
    case UnknownPieceRef(id, pid) => "Activity " + IntToString(id) + " references non-existent piece ID " + IntToString(pid)
    case BadDate(field, value) => "Invalid date format in " + field + ": '" + value + "'"
    case InvalidJson(m) => "Invalid JSON format: " + m
    case ValidationFailed(m) => "Validation error: " + m
  }

  datatype JsonValidationResult = JsonValidationResult(
    isValid: bool,
    pieceCount: int,
    activityCount: int,
    errors: seq<ValidationError>,
    formatVersion: Option<string>)

  /** The structure and limit checks. */
  function HeaderErrors(d: ExportData, pieceLimit: int, activityLimit: int): seq<ValidationError>
  {
    (if IsBlank(d.exportInfo.version) then [MissingVersion] else [])
    + (if |d.pieces| == 0 && |d.activities| == 0 then [NoContent] else [])
    + (if |d.pieces| > pieceLimit then [TooManyPieces(|d.pieces|, pieceLimit)] else [])
    + (if |d.activities| > activityLimit then [TooManyActivities(|d.activities|, activityLimit)] else [])
  }

  /** The lower-cased non-blank names of pieces[..i]: the set the name check has built before piece i. */
  function SeenNames(pieces: seq<ExportPiece>, i: nat): set<string>
    requires i <= |pieces|
  {
    set j | 0 <= j < i && !IsBlank(pieces[j].name) :: Lower(pieces[j].name)
  }

  /**
   * The name check from piece i on, with `seen` the lower-cased names
   * accepted so far: a blank name, or a name already seen, is reported.
   */
  function NameWalk(pieces: seq<ExportPiece>, i: nat, seen: set<string>): seq<ValidationError>
    requires i <= |pieces|
    decreases |pieces| - i
  {
    if i == |pieces| then []
    else
      var p := pieces[i];
      if IsBlank(p.name) then [BlankPieceName(p.id)] + NameWalk(pieces, i + 1, seen)
      else if Lower(p.name) in seen then [DuplicateName(p.name)] + NameWalk(pieces, i + 1, seen)
      else NameWalk(pieces, i + 1, seen + {Lower(p.name)})
  }

  /** Piece i repeats, ignoring case, the name of an earlier piece with a non-blank name. */
  predicate RepeatsEarlierName(pieces: seq<ExportPiece>, i: int)
    requires 0 <= i < |pieces|
  {
    exists j :: 0 <= j < i && !IsBlank(pieces[j].name) && Lower(pieces[j].name) == Lower(pieces[i].name)
  }

  /** The finding for piece i, read directly off its name and the earlier names. */
  function NameErrorAt(pieces: seq<ExportPiece>, i: int): seq<ValidationError>
    requires 0 <= i < |pieces|
  {
    if IsBlank(pieces[i].name) then [BlankPieceName(pieces[i].id)]
    else if RepeatsEarlierName(pieces, i) then [DuplicateName(pieces[i].name)]
    else []
  }

  function NameErrorsFrom(pieces: seq<ExportPiece>, i: nat): seq<ValidationError>
    requires i <= |pieces|
    decreases |pieces| - i
  {
    if i == |pieces| then [] else NameErrorAt(pieces, i) + NameErrorsFrom(pieces, i + 1)
  }

  /** The set-based walk reports, piece by piece, exactly the blank names and the repeated names. */
  lemma {:induction false} NameWalkSpec(pieces: seq<ExportPiece>, i: nat)
    requires i <= |pieces|
    decreases |pieces| - i
    ensures NameWalk(pieces, i, SeenNames(pieces, i)) == NameErrorsFrom(pieces, i)
  {
    if i < |pieces| {
      var p := pieces[i];
      var seen := SeenNames(pieces, i);
      assert Lower(p.name) in seen <==> RepeatsEarlierName(pieces, i) by {
        if Lower(p.name) in seen {
          var j :| 0 <= j < i && !IsBlank(pieces[j].name) && Lower(pieces[j].name) == Lower(p.name);
        }
        if RepeatsEarlierName(pieces, i) {
          var j :| 0 <= j < i && !IsBlank(pieces[j].name) && Lower(pieces[j].name) == Lower(pieces[i].name);
          assert Lower(pieces[j].name) in seen;
        }
      }
      if IsBlank(p.name) || Lower(p.name) in seen {
        assert SeenNames(pieces, i + 1) == seen;
      } else {
        assert SeenNames(pieces, i + 1) == seen + {Lower(p.name)};
      }
      NameWalkSpec(pieces, i + 1);
    }
  }

  /** The per-piece findings: each blank name and each repeated name, once each. */
  lemma {:induction false} NameErrorsFromMembers(pieces: seq<ExportPiece>, i: nat, k: int)
    requires i <= k < |pieces|
    decreases |pieces| - i
    ensures IsBlank(pieces[k].name) ==> BlankPieceName(pieces[k].id) in NameErrorsFrom(pieces, i)
    ensures !IsBlank(pieces[k].name) && RepeatsEarlierName(pieces, k) ==>
              DuplicateName(pieces[k].name) in NameErrorsFrom(pieces, i)
  {
    if i < k {
      NameErrorsFromMembers(pieces, i + 1, k);
    }
  }

  /** Every name finding is a blank or a repeated name of some piece. */
  lemma {:induction false} NameErrorsFromSound(pieces: seq<ExportPiece>, i: nat, e: ValidationError)
    requires i <= |pieces|
    requires e in NameErrorsFrom(pieces, i)
    decreases |pieces| - i
    ensures exists k :: i <= k < |pieces| && e in NameErrorAt(pieces, k)
  {
    if e !in NameErrorAt(pieces, i) {
      NameErrorsFromSound(pieces, i + 1, e);
    }
  }

  /** The ids of the pieces in the export. */
  function ImportPieceIds(pieces: seq<ExportPiece>): set<int>
  {
    set i | 0 <= i < |pieces| :: pieces[i].id
  }

  function ReferenceErrors(acts: seq<ExportActivity>, ids: set<int>): seq<ValidationError>
  {
    if |acts| == 0 then []
    else (if acts[0].pieceId !in ids then [UnknownPieceRef(acts[0].id, acts[0].pieceId)] else [])
         + ReferenceErrors(acts[1..], ids)
  }

  /** Each activity with an unknown piece is reported, and only such activities are. */
  lemma {:induction false} ReferenceErrorsSpec(acts: seq<ExportActivity>, ids: set<int>)
    ensures forall i :: 0 <= i < |acts| && acts[i].pieceId !in ids ==>
              UnknownPieceRef(acts[i].id, acts[i].pieceId) in ReferenceErrors(acts, ids)
    ensures forall e :: e in ReferenceErrors(acts, ids) ==>
              e.UnknownPieceRef? && e.referencedId !in ids
              && exists i :: 0 <= i < |acts| && acts[i].id == e.activityId && acts[i].pieceId == e.referencedId
  {
    if |acts| > 0 {
      ReferenceErrorsSpec(acts[1..], ids);
      assert forall i :: 1 <= i < |acts| ==> acts[i] == acts[1..][i - 1];
      forall e | e in ReferenceErrors(acts[1..], ids)
        ensures exists i :: 0 <= i < |acts| && acts[i].id == e.activityId && acts[i].pieceId == e.referencedId
      {
        var k :| 0 <= k < |acts[1..]| && acts[1..][k].id == e.activityId && acts[1..][k].pieceId == e.referencedId;
        assert acts[k + 1] == acts[1..][k];
      }
    }
  }

  /** validateDateField: a present, non-blank text that no format reads is reported. */
  function DateFieldErrors(text: Option<string>, field: string, parseDate: string -> Option<int>)
    : (r: seq<ValidationError>)
    ensures r == [] <==> text.None? || IsBlank(text.value) || ParseTimestamp(text, parseDate).Some?
    ensures r != [] ==> r == [BadDate(field, text.value)]
  {
    if text.Some? && !IsBlank(text.value) && ParseTimestamp(text, parseDate).None?
    then [BadDate(field, text.value)] else []
  }

  /** The ten date fields of one piece, in the order they are checked, with the name each is reported under. */
  function PieceDateFields(p: ExportPiece): seq<(Option<string>, string)>
  {
    var s := p.statistics;
    var suffix := " for piece " + p.name;
    [(s.lastPracticeDate, "lastPracticeDate" + suffix),
     (s.secondLastPracticeDate, "secondLastPracticeDate" + suffix),
     (s.thirdLastPracticeDate, "thirdLastPracticeDate" + suffix),
     (s.lastPerformanceDate, "lastPerformanceDate" + suffix),
     (s.secondLastPerformanceDate, "secondLastPerformanceDate" + suffix),
     (s.thirdLastPerformanceDate, "thirdLastPerformanceDate" + suffix),
     (s.lastSatisfactoryPractice, "lastSatisfactoryPractice" + suffix),
     (s.lastSatisfactoryPerformance, "lastSatisfactoryPerformance" + suffix),
     (Some(s.dateCreated), "dateCreated" + suffix),
     (Some(s.lastUpdated), "lastUpdated" + suffix)]
  }

  /** The date checks of a list of fields, in order. */
  function FieldErrors(fields: seq<(Option<string>, string)>, parseDate: string -> Option<int>): seq<ValidationError>
  {
    if |fields| == 0 then []
    else DateFieldErrors(fields[0].0, fields[0].1, parseDate) + FieldErrors(fields[1..], parseDate)
  }

  /** Only unreadable fields are reported, and each one is. */
  lemma {:induction false} FieldErrorsSpec(fields: seq<(Option<string>, string)>, parseDate: string -> Option<int>)
    ensures forall e :: e in FieldErrors(fields, parseDate) ==> e.BadDate?
    ensures FieldErrors(fields, parseDate) == [] <==> forall i :: 0 <= i < |fields| ==> Readable(fields[i].0, parseDate)
  {
    if |fields| > 0 {
      FieldErrorsSpec(fields[1..], parseDate);
      assert forall i :: 1 <= i < |fields| ==> fields[i] == fields[1..][i - 1];
    }
  }

  function PieceDateErrors(p: ExportPiece, parseDate: string -> Option<int>): seq<ValidationError>
  {
    FieldErrors(PieceDateFields(p), parseDate)
  }

  function AllPieceDateErrors(pieces: seq<ExportPiece>, parseDate: string -> Option<int>): seq<ValidationError>
  {
    if |pieces| == 0 then [] else PieceDateErrors(pieces[0], parseDate) + AllPieceDateErrors(pieces[1..], parseDate)
  }

  function ActivityDateErrors(acts: seq<ExportActivity>, parseDate: string -> Option<int>): seq<ValidationError>
  {
    if |acts| == 0 then []
    else DateFieldErrors(Some(acts[0].timestamp), "timestamp for activity " + IntToString(acts[0].id), parseDate)
         + ActivityDateErrors(acts[1..], parseDate)
  }

  /** A present date text is readable, or blank. */
  predicate Readable(text: Option<string>, parseDate: string -> Option<int>)
  {
    text.None? || IsBlank(text.value) || ParseTimestamp(text, parseDate).Some?
  }

  /** Every activity timestamp is readable exactly when no activity date is reported. */
  lemma {:induction false} ActivityDateErrorsEmpty(acts: seq<ExportActivity>, parseDate: string -> Option<int>)
    ensures ActivityDateErrors(acts, parseDate) == [] <==>
              forall i :: 0 <= i < |acts| ==> Readable(Some(acts[i].timestamp), parseDate)
  {
    if |acts| > 0 {
      ActivityDateErrorsEmpty(acts[1..], parseDate);
      assert forall i :: 1 <= i < |acts| ==> acts[i] == acts[1..][i - 1];
    }
  }

  /** The checks after the header: names, piece references, then the dates. */
  function ContentErrors(d: ExportData, parseDate: string -> Option<int>): seq<ValidationError>
  {
    NameWalk(d.pieces, 0, {})
    + (ReferenceErrors(d.activities, ImportPieceIds(d.pieces))
       + (AllPieceDateErrors(d.pieces, parseDate) + ActivityDateErrors(d.activities, parseDate)))
  }

  /** validateJson. */
  function ValidateJson(parsed: ParseOutcome, pieceLimit: int, activityLimit: int, parseDate: string -> Option<int>)
    : (r: JsonValidationResult)
    ensures r.isValid <==> |r.errors| == 0
    ensures parsed.Parsed? ==>
              r.pieceCount == |parsed.data.pieces| && r.activityCount == |parsed.data.activities|
              && r.formatVersion == Some(parsed.data.exportInfo.version)
    ensures !parsed.Parsed? ==>
              !r.isValid && r.pieceCount == 0 && r.activityCount == 0 && |r.errors| == 1 && r.formatVersion.None?
  {
    match parsed
    case SyntaxError(m) => JsonValidationResult(false, 0, 0, [InvalidJson(m)], None)
    case OtherFailure(m) => JsonValidationResult(false, 0, 0, [ValidationFailed(m)], None)
    case Parsed(d) =>
      var errors := HeaderErrors(d, pieceLimit, activityLimit) + ContentErrors(d, parseDate);
      JsonValidationResult(|errors| == 0, |d.pieces|, |d.activities|, errors, Some(d.exportInfo.version))
  }

  /**
   * For parsed data: an export with neither pieces nor activities is invalid,
   * a blank version is reported, and each limit error appears exactly when
   * that limit is exceeded.
   */
  lemma ValidateJsonFindings(d: ExportData, pieceLimit: int, activityLimit: int, parseDate: string -> Option<int>)
    ensures var r := ValidateJson(Parsed(d), pieceLimit, activityLimit, parseDate);
            (|d.pieces| == 0 && |d.activities| == 0 ==> NoContent in r.errors && !r.isValid)
            && (TooManyPieces(|d.pieces|, pieceLimit) in r.errors <==> |d.pieces| > pieceLimit)
            && (TooManyActivities(|d.activities|, activityLimit) in r.errors <==> |d.activities| > activityLimit)
            && (IsBlank(d.exportInfo.version) ==> MissingVersion in r.errors)
  {
    var header := HeaderErrors(d, pieceLimit, activityLimit);
    var content := ContentErrors(d, parseDate);
    assert ValidateJson(Parsed(d), pieceLimit, activityLimit, parseDate).errors == header + content;
    ContentErrorsNoLimit(d, parseDate);
    HeaderErrorsSpec(d, pieceLimit, activityLimit);
  }

  /** The header checks, one by one. */
  lemma HeaderErrorsSpec(d: ExportData, pieceLimit: int, activityLimit: int)
    ensures var h := HeaderErrors(d, pieceLimit, activityLimit);
            (MissingVersion in h <==> IsBlank(d.exportInfo.version))
            && (NoContent in h <==> |d.pieces| == 0 && |d.activities| == 0)
            && (TooManyPieces(|d.pieces|, pieceLimit) in h <==> |d.pieces| > pieceLimit)
            && (TooManyActivities(|d.activities|, activityLimit) in h <==> |d.activities| > activityLimit)
  {
  }

  /** The name, reference and date checks never report a limit. */
  lemma ContentErrorsNoLimit(d: ExportData, parseDate: string -> Option<int>)
    ensures forall e :: e in ContentErrors(d, parseDate) ==> !e.TooManyPieces? && !e.TooManyActivities?
  {
    NameWalkSpec(d.pieces, 0);
    assert SeenNames(d.pieces, 0) == {};
    forall e | e in NameErrorsFrom(d.pieces, 0) ensures !e.TooManyPieces? && !e.TooManyActivities? {
      NameErrorsFromSound(d.pieces, 0, e);
    }
    ReferenceErrorsSpec(d.activities, ImportPieceIds(d.pieces));
    AllPieceDateErrorsBad(d.pieces, parseDate);
    ActivityDateErrorsBad(d.activities, parseDate);
  }

  lemma {:induction false} AllPieceDateErrorsBad(pieces: seq<ExportPiece>, parseDate: string -> Option<int>)
    ensures forall e :: e in AllPieceDateErrors(pieces, parseDate) ==> e.BadDate?
  {
    if |pieces| > 0 {
      FieldErrorsSpec(PieceDateFields(pieces[0]), parseDate);
      AllPieceDateErrorsBad(pieces[1..], parseDate);
    }
  }

  lemma {:induction false} ActivityDateErrorsBad(acts: seq<ExportActivity>, parseDate: string -> Option<int>)
    ensures forall e :: e in ActivityDateErrors(acts, parseDate) ==> e.BadDate?
  {
    if |acts| > 0 {
      ActivityDateErrorsBad(acts[1..], parseDate);
    }
  }

  /**
   * For parsed data, every blank piece name, every name repeating an earlier
   * one ignoring case, every activity with an unknown piece and every
   * unreadable activity timestamp is among the errors.
   */
  lemma ValidateJsonReports(d: ExportData, pieceLimit: int, activityLimit: int, parseDate: string -> Option<int>)
    ensures var r := ValidateJson(Parsed(d), pieceLimit, activityLimit, parseDate);
            (forall k :: 0 <= k < |d.pieces| && IsBlank(d.pieces[k].name) ==> BlankPieceName(d.pieces[k].id) in r.errors)
            && (forall k :: 0 <= k < |d.pieces| && !IsBlank(d.pieces[k].name) && RepeatsEarlierName(d.pieces, k) ==>
                  DuplicateName(d.pieces[k].name) in r.errors)
            && (forall i :: 0 <= i < |d.activities| && d.activities[i].pieceId !in ImportPieceIds(d.pieces) ==>
                  UnknownPieceRef(d.activities[i].id, d.activities[i].pieceId) in r.errors)
            && ((exists i :: 0 <= i < |d.activities| && !Readable(Some(d.activities[i].timestamp), parseDate)) ==> !r.isValid)
  {
    var r := ValidateJson(Parsed(d), pieceLimit, activityLimit, parseDate);
    NameWalkSpec(d.pieces, 0);
    assert SeenNames(d.pieces, 0) == {};
    forall k | 0 <= k < |d.pieces|
      ensures IsBlank(d.pieces[k].name) ==> BlankPieceName(d.pieces[k].id) in r.errors
      ensures !IsBlank(d.pieces[k].name) && RepeatsEarlierName(d.pieces, k) ==> DuplicateName(d.pieces[k].name) in r.errors
    {
      NameErrorsFromMembers(d.pieces, 0, k);
    }
    ReferenceErrorsSpec(d.activities, ImportPieceIds(d.pieces));
    ActivityDateErrorsEmpty(d.activities, parseDate);
  }

  // ---------------------------------------------------------------------------
  // Conversion.

  /** A timestamp kept only when positive, as an export followed by an import keeps it. */
  function Positive(t: Option<int>): (r: Option<int>)
    ensures r.Some? <==> t.Some? && t.value > 0
    ensures r.Some? ==> r == t
  {
    if t.Some? && t.value > 0 then t else None
  }

  /** convertPieceFromExport: id 0 for the database to assign, the name trimmed, unreadable required dates now. */
  function PieceFromExport(e: ExportPiece, parseDate: string -> Option<int>, nowMs: int): (p: PieceOrTechnique)
    ensures p.id == 0 && p.name == Trim(e.name) && p.itemType == e.itemType && p.isFavorite == e.isFavorite
    ensures p.practiceCount == e.statistics.practiceCount && p.performanceCount == e.statistics.performanceCount
  {
    var s := e.statistics;
    var created := ParseTimestamp(Some(s.dateCreated), parseDate).GetOr(nowMs);
    NewPiece(0, Trim(e.name), e.itemType, e.isFavorite, created).(
      practiceCount := s.practiceCount,
      performanceCount := s.performanceCount,
      lastPracticeDate := ParseTimestamp(s.lastPracticeDate, parseDate),
      secondLastPracticeDate := ParseTimestamp(s.secondLastPracticeDate, parseDate),
      thirdLastPracticeDate := ParseTimestamp(s.thirdLastPracticeDate, parseDate),
      lastPerformanceDate := ParseTimestamp(s.lastPerformanceDate, parseDate),
      secondLastPerformanceDate := ParseTimestamp(s.secondLastPerformanceDate, parseDate),
      thirdLastPerformanceDate := ParseTimestamp(s.thirdLastPerformanceDate, parseDate),
      lastSatisfactoryPractice := ParseTimestamp(s.lastSatisfactoryPractice, parseDate),
      lastSatisfactoryPerformance := ParseTimestamp(s.lastSatisfactoryPerformance, parseDate),
      lastUpdated := ParseTimestamp(Some(s.lastUpdated), parseDate).GetOr(nowMs))
  }

  /** convertActivityFromExport: id 0, the export's piece id kept for the later mapping. */
  function ActivityFromExport(e: ExportActivity, parseDate: string -> Option<int>, nowMs: int): (a: Activity)
    ensures a.id == 0 && a.pieceOrTechniqueId == e.pieceId && a.activityType == e.activityType
    ensures a.level == e.level && a.performanceType == e.performanceType && a.minutes == e.minutes && a.notes == e.notes
    ensures ParseTimestamp(Some(e.timestamp), parseDate).Some? ==> Some(a.timestamp) == ParseTimestamp(Some(e.timestamp), parseDate)
    ensures ParseTimestamp(Some(e.timestamp), parseDate).None? ==> a.timestamp == nowMs
  {
    Activity(0, ParseTimestamp(Some(e.timestamp), parseDate).GetOr(nowMs), e.pieceId, e.activityType, e.level,
             e.performanceType, e.minutes, e.notes)
  }

  /**
   * The date formats read back what the exporter's formatter writes for a
   * positive timestamp, cut to its second: the pattern
   * "yyyy-MM-dd'T'HH:mm:ss'Z'" writes no milliseconds.
   */
  ghost predicate DatesToSecond(iso: int -> string, parseDate: string -> Option<int>)
  {
    forall t :: t > 0 ==> ParseTimestamp(Some(iso(t)), parseDate) == Some(ToSecond(t))
  }

  /** A formatter that writes the whole seconds in decimal meets the hypothesis, so it can be met. */
  lemma DecimalSecondsToSecond()
    ensures DatesToSecond(t => IntToString(ToSecond(t)), s => ParseSigned(s))
  {
    forall t | t > 0
      ensures ParseTimestamp(Some(IntToString(ToSecond(t))), s => ParseSigned(s)) == Some(ToSecond(t))
    {
      ParseIntToString(ToSecond(t));
      assert !IsWhitespace(IntToString(ToSecond(t))[|IntToString(ToSecond(t))| - 1]);
    }
  }

  /** An optional timestamp after an export and an import: dropped unless positive, and cut to its second. */
  function SecondIfPositive(t: Option<int>): (r: Option<int>)
    ensures r.Some? <==> Positive(t).Some?
    ensures r.Some? ==> r.value == ToSecond(t.value) && r.value <= t.value
  {
    if t.Some? && t.value > 0 then Some(ToSecond(t.value)) else None
  }

  /**
   * An activity with a positive timestamp survives an export followed by an
   * import apart from its id, which the database assigns anew, and the
   * milliseconds of its timestamp, which the date text does not carry.
   */
  lemma ActivityRoundTrip(a: Activity, iso: int -> string, nowText: string, parseDate: string -> Option<int>, nowMs: int)
    requires a.timestamp > 0
    requires ParseTimestamp(Some(iso(a.timestamp)), parseDate) == Some(ToSecond(a.timestamp))
    ensures ActivityFromExport(ConvertActivity(a, iso, nowText), parseDate, nowMs)
            == a.(id := 0, timestamp := ToSecond(a.timestamp))
  {
  }

  /** An activity at 1700000000123 comes back at 1700000000000. */
  lemma ActivityLosesMilliseconds(a: Activity, iso: int -> string, nowText: string, parseDate: string -> Option<int>,
                                  nowMs: int)
    requires a.timestamp == 1700000000123
    requires DatesToSecond(iso, parseDate)
    ensures ActivityFromExport(ConvertActivity(a, iso, nowText), parseDate, nowMs).timestamp == 1700000000000
  {
    ActivityRoundTrip(a, iso, nowText, parseDate, nowMs);
  }

  /**
   * A piece with positive creation and update times survives an export
   * followed by an import with id 0, its name trimmed, every date cut to its
   * second and every optional date kept only when positive, and the
   * statistics the export does not carry reset.
   */
  lemma PieceRoundTrip(p: PieceOrTechnique, iso: int -> string, nowText: string, parseDate: string -> Option<int>,
                       nowMs: int)
    requires p.dateCreated > 0 && p.lastUpdated > 0
    requires DatesToSecond(iso, parseDate)
    ensures PieceFromExport(ConvertPiece(p, iso, nowText), parseDate, nowMs)
            == p.(id := 0, name := Trim(p.name),
                  dateCreated := ToSecond(p.dateCreated), lastUpdated := ToSecond(p.lastUpdated),
                  lastPracticeDate := SecondIfPositive(p.lastPracticeDate),
                  secondLastPracticeDate := SecondIfPositive(p.secondLastPracticeDate),
                  thirdLastPracticeDate := SecondIfPositive(p.thirdLastPracticeDate),
                  lastPerformanceDate := SecondIfPositive(p.lastPerformanceDate),
                  secondLastPerformanceDate := SecondIfPositive(p.secondLastPerformanceDate),
                  thirdLastPerformanceDate := SecondIfPositive(p.thirdLastPerformanceDate),
                  lastSatisfactoryPractice := SecondIfPositive(p.lastSatisfactoryPractice),
                  lastSatisfactoryPerformance := SecondIfPositive(p.lastSatisfactoryPerformance),
                  totalPracticeDuration := 0, averagePracticeLevel := None,
                  lastThreePractices := None, lastThreePerformances := None)
  {
    RoundTripOptional(p.lastPracticeDate, iso, parseDate);
    RoundTripOptional(p.secondLastPracticeDate, iso, parseDate);
    RoundTripOptional(p.thirdLastPracticeDate, iso, parseDate);
    RoundTripOptional(p.lastPerformanceDate, iso, parseDate);
    RoundTripOptional(p.secondLastPerformanceDate, iso, parseDate);
    RoundTripOptional(p.thirdLastPerformanceDate, iso, parseDate);
    RoundTripOptional(p.lastSatisfactoryPractice, iso, parseDate);
    RoundTripOptional(p.lastSatisfactoryPerformance, iso, parseDate);
    assert ParseTimestamp(Some(iso(p.dateCreated)), parseDate) == Some(ToSecond(p.dateCreated));
    assert ParseTimestamp(Some(iso(p.lastUpdated)), parseDate) == Some(ToSecond(p.lastUpdated));
  }

  /** An optional timestamp comes back cut to its second when positive, and is dropped otherwise. */
  lemma RoundTripOptional(t: Option<int>, iso: int -> string, parseDate: string -> Option<int>)
    requires DatesToSecond(iso, parseDate)
    ensures ParseTimestamp(FormatTimestamp(t, iso), parseDate) == SecondIfPositive(t)
  {
    if t.Some? && t.value > 0 {
      assert ParseTimestamp(Some(iso(t.value)), parseDate) == Some(ToSecond(t.value));
    }
  }

  /** piece name -> original id, a later piece of the same name replacing an earlier one. */
  function OriginalIds(pieces: seq<ExportPiece>, acc: map<string, int>): (m: map<string, int>)
    decreases |pieces|
  {
    if |pieces| == 0 then acc else OriginalIds(pieces[1..], acc[pieces[0].name := pieces[0].id])
  }

  /**
   * The name map holds exactly the names of the pieces (and what it held
   * before), and maps each name to the id of the last piece with that name.
   */
  lemma {:induction false} OriginalIdsSpec(pieces: seq<ExportPiece>, acc: map<string, int>)
    decreases |pieces|
    ensures var m := OriginalIds(pieces, acc);
            (forall n :: n in m <==> n in acc || exists i :: 0 <= i < |pieces| && pieces[i].name == n)
            && (forall i :: 0 <= i < |pieces| && (forall j :: i < j < |pieces| ==> pieces[j].name != pieces[i].name) ==>
                  m[pieces[i].name] == pieces[i].id)
            && (forall n :: n in acc && (forall i :: 0 <= i < |pieces| ==> pieces[i].name != n) ==> m[n] == acc[n])
  {
    if |pieces| > 0 {
      var rest := pieces[1..];
      OriginalIdsSpec(rest, acc[pieces[0].name := pieces[0].id]);
      assert forall i :: 1 <= i < |pieces| ==> pieces[i] == rest[i - 1];
    }
  }

  datatype JsonImportResult = JsonImportResult(
    success: bool,
    piecesImported: int,
    activitiesImported: int,
    errors: seq<string>,
    warnings: seq<string>)

  /** What a successful parse leaves for the repository: the converted data and the name map. */
  datatype ImportedData = ImportedData(
    pieces: seq<PieceOrTechnique>,
    activities: seq<Activity>,
    originalPieceIds: map<string, int>)

  /** The result and, when the text parsed, the data stored for the repository. */
  datatype ImportOutcome = ImportOutcome(result: JsonImportResult, stored: Option<ImportedData>)

  /** importFromJson. */
  function ImportFromJson(parsed: ParseOutcome, parseDate: string -> Option<int>, nowMs: int): (r: ImportOutcome)
    ensures r.result.success <==> r.result.errors == []
    ensures !parsed.Parsed? ==>
              !r.result.success && r.result.piecesImported == 0 && r.result.activitiesImported == 0
              && |r.result.errors| == 1 && r.stored.None?
    ensures parsed.Parsed? ==>
              r.stored.Some?
              && |r.stored.value.pieces| == r.result.piecesImported == |parsed.data.pieces|
              && |r.stored.value.activities| == r.result.activitiesImported == |parsed.data.activities|
  {
    match parsed
    case SyntaxError(m) => ImportOutcome(JsonImportResult(false, 0, 0, ["Invalid JSON format: " + m], []), None)
    case OtherFailure(m) => ImportOutcome(JsonImportResult(false, 0, 0, ["Import error: " + m], []), None)
    case Parsed(d) =>
      var pieces := Map(d.pieces, (e: ExportPiece) => PieceFromExport(e, parseDate, nowMs));
      var acts := Map(d.activities, (e: ExportActivity) => ActivityFromExport(e, parseDate, nowMs));
      ImportOutcome(JsonImportResult(true, |pieces|, |acts|, [], []),
                    Some(ImportedData(pieces, acts, OriginalIds(d.pieces, map[]))))
  }

  /**
   * After a parse every piece is converted in order with id 0 and a trimmed
   * name, and every activity keeps its export piece id.
   */
  lemma ImportFromJsonConverts(d: ExportData, parseDate: string -> Option<int>, nowMs: int)
    ensures var stored := ImportFromJson(Parsed(d), parseDate, nowMs).stored.value;
            (forall i :: 0 <= i < |d.pieces| ==>
               stored.pieces[i].id == 0 && stored.pieces[i].name == Trim(d.pieces[i].name))
            && (forall i :: 0 <= i < |d.activities| ==> stored.activities[i].pieceOrTechniqueId == d.activities[i].pieceId)
  {
  }
}
