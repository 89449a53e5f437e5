/**
 * The stored entities: activities and pieces/techniques, with
 * timestamps as integer milliseconds since the epoch.
 */
module Entities {
  import opened Wrappers
  import opened Seqs

  /** Milliseconds in one day; the model, like the system, treats every day as 24 hours long. */
  const DAY_MS: int := 24 * 60 * 60 * 1000
  const HOUR_MS: int := 60 * 60 * 1000
  const MINUTE_MS: int := 60 * 1000
  const SECOND_MS: int := 1000

  /**
   * A timestamp cut to the start of its second, as a date text without
   * milliseconds keeps it: the greatest whole second not after `t`.
   */
  function ToSecond(t: int): (r: int)
    ensures r % SECOND_MS == 0 && r <= t < r + SECOND_MS
  {
    t - t % SECOND_MS
  }

  /** Cutting to the second keeps whole seconds, and so cutting twice is cutting once. */
  lemma ToSecondWhole(t: int)
    ensures ToSecond(t) == t <==> t % SECOND_MS == 0
    ensures ToSecond(ToSecond(t)) == ToSecond(t)
  {
  }

  datatype ActivityType = PRACTICE | PERFORMANCE

  datatype ItemType = PIECE | TECHNIQUE

  /** A logged practice session or performance; `minutes` is -1 when no length was recorded. */
  datatype Activity = Activity(
    id: int,
    timestamp: int,
    pieceOrTechniqueId: int,
    activityType: ActivityType,
    level: int,
    performanceType: string,
    minutes: int,
    notes: string)

  /**
   * A piece or technique with its denormalised statistics. The four fields
   * after `lastUpdated` are those the repository reads and writes although the
   * entity class of this snapshot does not declare them.
   */
  datatype PieceOrTechnique = PieceOrTechnique(
    id: int,
    name: string,
    itemType: ItemType,
    isFavorite: bool,
    dateCreated: int,
    practiceCount: int,
    performanceCount: int,
    lastPracticeDate: Option<int>,
    secondLastPracticeDate: Option<int>,
    thirdLastPracticeDate: Option<int>,
    lastPerformanceDate: Option<int>,
    secondLastPerformanceDate: Option<int>,
    thirdLastPerformanceDate: Option<int>,
    lastSatisfactoryPractice: Option<int>,
    lastSatisfactoryPerformance: Option<int>,
    lastUpdated: int,
    totalPracticeDuration: int,
    averagePracticeLevel: Option<real>,
    lastThreePractices: Option<string>,
    lastThreePerformances: Option<string>)

  /** A piece as the constructor's defaults create it: no statistics yet. */
  function NewPiece(id: int, name: string, itemType: ItemType, isFavorite: bool, now: int): (p: PieceOrTechnique)
    ensures p.id == id && p.name == name && p.itemType == itemType && p.isFavorite == isFavorite
    ensures p.practiceCount == 0 && p.performanceCount == 0 && p.totalPracticeDuration == 0
    ensures p.lastPracticeDate.None? && p.lastPerformanceDate.None? && p.averagePracticeLevel.None?
  {
    PieceOrTechnique(id, name, itemType, isFavorite, now, 0, 0, None, None, None, None, None, None,
                     None, None, now, 0, None, None, None)
  }

  function TimestampOf(a: Activity): int
  {
    a.timestamp
  }

  function Timestamps(acts: seq<Activity>): (ts: seq<int>)
    ensures |ts| == |acts|
    ensures forall i :: 0 <= i < |acts| ==> ts[i] == acts[i].timestamp
  {
    Map(acts, TimestampOf)
  }

  function OfType(acts: seq<Activity>, t: ActivityType): (r: seq<Activity>)
    ensures forall i :: 0 <= i < |r| ==> r[i].activityType == t
  {
    Filter(acts, (a: Activity) => a.activityType == t)
  }

  function ForPiece(acts: seq<Activity>, pieceId: int): (r: seq<Activity>)
    ensures forall i :: 0 <= i < |r| ==> r[i].pieceOrTechniqueId == pieceId
  {
    Filter(acts, (a: Activity) => a.pieceOrTechniqueId == pieceId)
  }
}
