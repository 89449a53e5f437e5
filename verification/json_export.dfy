/**
 * The JSON export format (ExportData.kt) and the exporter (JsonExporter.kt):
 * converting pieces and activities into export records and validating an
 * export. The UTC ISO-8601 formatter is the parameter `iso`, and the current
 * time already formatted is the parameter `nowText`; serialising to JSON text
 * is left to the library and not modelled.
 */
module JsonExport {
  import opened Wrappers
  import opened Seqs
  import opened Text
  import opened Decimal
  import opened Entities

  const EXPORT_FORMAT_VERSION: string := "1.0"
  const EXPORT_FORMAT_TYPE: string := "combined_data"

  datatype ExportInfo = ExportInfo(version: string, exportDate: string, format: string, appVersion: string)

  /** A piece's statistics; the optional dates are absent when there is no such date. */
  datatype PieceStatistics = PieceStatistics(
    practiceCount: int,
    performanceCount: int,
    lastPracticeDate: Option<string>,
    secondLastPracticeDate: Option<string>,
    thirdLastPracticeDate: Option<string>,
    lastPerformanceDate: Option<string>,
    secondLastPerformanceDate: Option<string>,
    thirdLastPerformanceDate: Option<string>,
    lastSatisfactoryPractice: Option<string>,
    lastSatisfactoryPerformance: Option<string>,
    dateCreated: string,
    lastUpdated: string)

  datatype ExportPiece = ExportPiece(
    id: int,
    name: string,
    itemType: ItemType,
    isFavorite: bool,
    statistics: PieceStatistics)

  datatype ExportActivity = ExportActivity(
    id: int,
    pieceId: int,
    timestamp: string,
    activityType: ActivityType,
    level: int,
    performanceType: string,
    minutes: int,
    notes: string)

  datatype ExportData = ExportData(exportInfo: ExportInfo, pieces: seq<ExportPiece>, activities: seq<ExportActivity>)

  // ---------------------------------------------------------------------------
  // Conversion.

  /** formatTimestamp: no text for an absent or non-positive timestamp. */
  function FormatTimestamp(timestamp: Option<int>, iso: int -> string): (r: Option<string>)
    ensures r.None? <==> timestamp.None? || timestamp.value <= 0
    ensures r.Some? ==> r.value == iso(timestamp.value)
  {
    if timestamp.Some? && timestamp.value > 0 then Some(iso(timestamp.value)) else None
  }

  /** A required date: its text, or the current time's text when it is not positive. */
  function FormatRequired(timestamp: int, iso: int -> string, nowText: string): (r: string)
    ensures timestamp > 0 ==> r == iso(timestamp)
    ensures timestamp <= 0 ==> r == nowText
  {
    FormatTimestamp(Some(timestamp), iso).GetOr(nowText)
  }

  /** convertPieceToExport. */
  function ConvertPiece(p: PieceOrTechnique, iso: int -> string, nowText: string): (e: ExportPiece)
    ensures e.id == p.id && e.name == p.name && e.itemType == p.itemType && e.isFavorite == p.isFavorite
    ensures e.statistics.practiceCount == p.practiceCount && e.statistics.performanceCount == p.performanceCount
  {
    ExportPiece(p.id, p.name, p.itemType, p.isFavorite,
      PieceStatistics(
        p.practiceCount,
        p.performanceCount,
        FormatTimestamp(p.lastPracticeDate, iso),
        FormatTimestamp(p.secondLastPracticeDate, iso),
        FormatTimestamp(p.thirdLastPracticeDate, iso),
        FormatTimestamp(p.lastPerformanceDate, iso),
        FormatTimestamp(p.secondLastPerformanceDate, iso),
        FormatTimestamp(p.thirdLastPerformanceDate, iso),
        FormatTimestamp(p.lastSatisfactoryPractice, iso),
        FormatTimestamp(p.lastSatisfactoryPerformance, iso),
        FormatRequired(p.dateCreated, iso, nowText),
        FormatRequired(p.lastUpdated, iso, nowText)))
  }

  /** convertActivityToExport. */
  function ConvertActivity(a: Activity, iso: int -> string, nowText: string): (e: ExportActivity)
    ensures e.id == a.id && e.pieceId == a.pieceOrTechniqueId && e.activityType == a.activityType
    ensures e.level == a.level && e.performanceType == a.performanceType
    ensures e.minutes == a.minutes && e.notes == a.notes
  {
    ExportActivity(a.id, a.pieceOrTechniqueId, FormatRequired(a.timestamp, iso, nowText), a.activityType,
                   a.level, a.performanceType, a.minutes, a.notes)
  }

  function ConvertPieces(pieces: seq<PieceOrTechnique>, iso: int -> string, nowText: string): (r: seq<ExportPiece>)
    ensures |r| == |pieces|
    ensures forall i :: 0 <= i < |pieces| ==> r[i] == ConvertPiece(pieces[i], iso, nowText)
  {
    if |pieces| == 0 then [] else [ConvertPiece(pieces[0], iso, nowText)] + ConvertPieces(pieces[1..], iso, nowText)
  }

  function ConvertActivities(acts: seq<Activity>, iso: int -> string, nowText: string): (r: seq<ExportActivity>)
    ensures |r| == |acts|
    ensures forall i :: 0 <= i < |acts| ==> r[i] == ConvertActivity(acts[i], iso, nowText)
  {
    if |acts| == 0 then [] else [ConvertActivity(acts[0], iso, nowText)] + ConvertActivities(acts[1..], iso, nowText)
  }

  /** createExportData: version "1.0", format "combined_data", one record per piece and per activity, in order. */
  function CreateExportData(pieces: seq<PieceOrTechnique>, acts: seq<Activity>, iso: int -> string, nowText: string,
                            appVersion: string): (d: ExportData)
    ensures d.exportInfo == ExportInfo(EXPORT_FORMAT_VERSION, nowText, EXPORT_FORMAT_TYPE, appVersion)
    ensures |d.pieces| == |pieces| && |d.activities| == |acts|
    ensures forall i :: 0 <= i < |pieces| ==> d.pieces[i] == ConvertPiece(pieces[i], iso, nowText)
    ensures forall i :: 0 <= i < |acts| ==> d.activities[i] == ConvertActivity(acts[i], iso, nowText)
  {
    ExportData(ExportInfo(EXPORT_FORMAT_VERSION, nowText, EXPORT_FORMAT_TYPE, appVersion),
               ConvertPieces(pieces, iso, nowText), ConvertActivities(acts, iso, nowText))
  }

  // ---------------------------------------------------------------------------
  // Validation.

  /** The findings of validateExportData, in the order they are reported. */
  datatype ExportError =
    | VersionMissing
    | DateMissing
    | BlankName(pieceId: int)
    | NegativePracticeCount(pieceName: string)
    | NegativePerformanceCount(pieceName: string)
    | InvalidLevel(activityId: int, level: int)
    | InvalidMinutes(activityId: int, minutes: int)
    | UnknownPiece(activityId: int, pieceId: int)

  function Message(e: ExportError): string
  {
    match e
    case VersionMissing => "Export version is missing"
    case DateMissing => "Export date is missing"
    case BlankName(id) => "Piece with ID " + IntToString(id) + " has blank name"
    case NegativePracticeCount(name) => "Piece '" + name + "' has negative practice count"
    case NegativePerformanceCount(name) => "Piece '" + name + "' has negative performance count"
    case InvalidLevel(id, level) => "Activity with ID " + IntToString(id) + " has invalid level: " + IntToString(level)
    case InvalidMinutes(id, m) => "Activity with ID " + IntToString(id) + " has invalid minutes: " + IntToString(m)
    case UnknownPiece(id, pid) =>
      "Activity with ID " + IntToString(id) + " references non-existent piece ID " + IntToString(pid)
  }

  function InfoErrors(info: ExportInfo): seq<ExportError>
  {
    (if IsBlank(info.version) then [VersionMissing] else [])
    + (if IsBlank(info.exportDate) then [DateMissing] else [])
  }

  function PieceErrors(p: ExportPiece): seq<ExportError>
  {
    (if IsBlank(p.name) then [BlankName(p.id)] else [])
    + (if p.statistics.practiceCount < 0 then [NegativePracticeCount(p.name)] else [])
    + (if p.statistics.performanceCount < 0 then [NegativePerformanceCount(p.name)] else [])
  }

  function AllPieceErrors(pieces: seq<ExportPiece>): seq<ExportError>
  {
    if |pieces| == 0 then [] else PieceErrors(pieces[0]) + AllPieceErrors(pieces[1..])
  }

  function ActivityErrors(a: ExportActivity): seq<ExportError>
  {
    (if a.level < 1 then [InvalidLevel(a.id, a.level)] else [])
    + (if a.minutes < -1 then [InvalidMinutes(a.id, a.minutes)] else [])
  }

  function AllActivityErrors(acts: seq<ExportActivity>): seq<ExportError>
  {
    if |acts| == 0 then [] else ActivityErrors(acts[0]) + AllActivityErrors(acts[1..])
  }

  /** The ids of the exported pieces. */
  function PieceIds(pieces: seq<ExportPiece>): (ids: set<int>)
    ensures forall i :: 0 <= i < |pieces| ==> pieces[i].id in ids
    ensures forall x :: x in ids ==> exists i :: 0 <= i < |pieces| && pieces[i].id == x
  {
    set i | 0 <= i < |pieces| :: pieces[i].id
  }

  function RelationErrors(acts: seq<ExportActivity>, ids: set<int>): seq<ExportError>
  {
    if |acts| == 0 then []
    else (if acts[0].pieceId !in ids then [UnknownPiece(acts[0].id, acts[0].pieceId)] else [])
         + RelationErrors(acts[1..], ids)
  }

  /** validateExportData: the export information, then each piece, each activity and each activity's piece. */
  function ValidateExportData(d: ExportData): (errors: seq<ExportError>)
  {
    InfoErrors(d.exportInfo) + AllPieceErrors(d.pieces) + AllActivityErrors(d.activities)
    + RelationErrors(d.activities, PieceIds(d.pieces))
  }

  /** What a well-formed export is, stated directly. */
  predicate WellFormedPiece(p: ExportPiece)
  {
    !IsBlank(p.name) && p.statistics.practiceCount >= 0 && p.statistics.performanceCount >= 0
  }

  predicate WellFormedActivity(a: ExportActivity, ids: set<int>)
  {
    a.level >= 1 && a.minutes >= -1 && a.pieceId in ids
  }

  predicate WellFormedExport(d: ExportData)
  {
    !IsBlank(d.exportInfo.version) && !IsBlank(d.exportInfo.exportDate)
    && (forall i :: 0 <= i < |d.pieces| ==> WellFormedPiece(d.pieces[i]))
    && (forall i :: 0 <= i < |d.activities| ==> WellFormedActivity(d.activities[i], PieceIds(d.pieces)))
  }

  lemma {:induction false} AllPieceErrorsEmpty(pieces: seq<ExportPiece>)
    ensures AllPieceErrors(pieces) == [] <==> forall i :: 0 <= i < |pieces| ==> WellFormedPiece(pieces[i])
  {
    if |pieces| > 0 {
      AllPieceErrorsEmpty(pieces[1..]);
      assert forall i :: 1 <= i < |pieces| ==> pieces[i] == pieces[1..][i - 1];
    }
  }

  lemma {:induction false} AllActivityErrorsEmpty(acts: seq<ExportActivity>)
    ensures AllActivityErrors(acts) == [] <==> forall i :: 0 <= i < |acts| ==> acts[i].level >= 1 && acts[i].minutes >= -1
  {
    if |acts| > 0 {
      AllActivityErrorsEmpty(acts[1..]);
      assert forall i :: 1 <= i < |acts| ==> acts[i] == acts[1..][i - 1];
    }
  }

  /**
   * Every activity whose piece is unknown is reported, with its id and piece
   * id, and every relation error is such an activity.
   */
  lemma {:induction false} RelationErrorsSpec(acts: seq<ExportActivity>, ids: set<int>)
    ensures forall i :: 0 <= i < |acts| && acts[i].pieceId !in ids ==>
              UnknownPiece(acts[i].id, acts[i].pieceId) in RelationErrors(acts, ids)
    ensures forall e :: e in RelationErrors(acts, ids) ==>
              e.UnknownPiece? && e.pieceId !in ids
              && exists i :: 0 <= i < |acts| && acts[i].id == e.activityId && acts[i].pieceId == e.pieceId
    ensures RelationErrors(acts, ids) == [] <==> forall i :: 0 <= i < |acts| ==> acts[i].pieceId in ids
  {
    if |acts| > 0 {
      RelationErrorsSpec(acts[1..], ids);
      assert forall i :: 1 <= i < |acts| ==> acts[i] == acts[1..][i - 1];
      forall e | e in RelationErrors(acts[1..], ids)
        ensures exists i :: 0 <= i < |acts| && acts[i].id == e.activityId && acts[i].pieceId == e.pieceId
      {
        var k :| 0 <= k < |acts[1..]| && acts[1..][k].id == e.activityId && acts[1..][k].pieceId == e.pieceId;
        assert acts[k + 1] == acts[1..][k];
      }
    }
  }

  /** The validation reports nothing exactly when the export is well formed. */
  lemma ValidateEmptyIff(d: ExportData)
    ensures ValidateExportData(d) == [] <==> WellFormedExport(d)
  {
    AllPieceErrorsEmpty(d.pieces);
    AllActivityErrorsEmpty(d.activities);
    RelationErrorsSpec(d.activities, PieceIds(d.pieces));
  }

  /** Every activity that references a piece not in the export is reported by id. */
  lemma ValidateReportsUnknownPieces(d: ExportData)
    ensures forall i :: 0 <= i < |d.activities| && d.activities[i].pieceId !in PieceIds(d.pieces) ==>
              UnknownPiece(d.activities[i].id, d.activities[i].pieceId) in ValidateExportData(d)
  {
    RelationErrorsSpec(d.activities, PieceIds(d.pieces));
  }

  /**
   * Exporting pieces with names, non-negative counts, and activities with a
   * level of at least 1, minutes of at least -1 and a piece among the pieces,
   * at a non-blank time, gives an export that validates without findings.
   */
  lemma ExportValidates(pieces: seq<PieceOrTechnique>, acts: seq<Activity>, iso: int -> string, nowText: string,
                        appVersion: string)
    requires !IsBlank(nowText)
    requires forall i :: 0 <= i < |pieces| ==>
               !IsBlank(pieces[i].name) && pieces[i].practiceCount >= 0 && pieces[i].performanceCount >= 0
    requires forall i :: 0 <= i < |acts| ==>
               acts[i].level >= 1 && acts[i].minutes >= -1
               && exists j :: 0 <= j < |pieces| && pieces[j].id == acts[i].pieceOrTechniqueId
    ensures ValidateExportData(CreateExportData(pieces, acts, iso, nowText, appVersion)) == []
  {
    var d := CreateExportData(pieces, acts, iso, nowText, appVersion);
    forall i | 0 <= i < |acts|
      ensures d.activities[i].pieceId in PieceIds(d.pieces)
    {
      var j :| 0 <= j < |pieces| && pieces[j].id == acts[i].pieceOrTechniqueId;
      assert d.pieces[j].id == pieces[j].id;
    }
    assert !IsWhitespace(EXPORT_FORMAT_VERSION[0]);
    assert forall i :: 0 <= i < |pieces| ==> WellFormedPiece(d.pieces[i]);
    ValidateEmptyIff(d);
  }
}
