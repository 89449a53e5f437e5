/**
 * The consistency check of piece statistics against the activity table
 * (PieceStatisticsValidator.validateStatistics). Each finding carries the
 * stored and the recounted value its message prints.
 */
module StatsValidator {
  import opened Wrappers
  import opened Seqs
  import opened Entities
  import opened StatsHelper
  import opened RepositoryStats

  datatype Inconsistency =
    | PracticeCountMismatch(name: string, storedCount: int, actualCount: int)
    | PerformanceCountMismatch(name: string, storedCount: int, actualCount: int)
    | LastPracticeMismatch(name: string, storedDate: Option<int>, actualDate: Option<int>)
    | LastPerformanceMismatch(name: string, storedDate: Option<int>, actualDate: Option<int>)
    | DurationMismatch(name: string, storedMinutes: int, actualMinutes: int)
    | AverageMismatch(name: string, storedAverage: Option<real>, actualAverage: Option<real>)

  datatype ValidationResult = ValidationResult(isValid: bool, inconsistencies: seq<Inconsistency>)

  /** How far two averages may differ before they count as different. */
  const AVERAGE_TOLERANCE: real := 0.01

  function Abs(x: real): real
  {
    if x < 0.0 then -x else x
  }

  /** The stored and recounted averages differ: one is absent and the other not, or they are further apart than the tolerance. */
  predicate AveragesDiffer(stored: Option<real>, actual: Option<real>)
  {
    stored.None? != actual.None?
    || (stored.Some? && actual.Some? && Abs(stored.value - actual.value) > AVERAGE_TOLERANCE)
  }

  /** The values the checks compare a piece's statistics with, recounted from its activities. */
  datatype Recount = Recount(
    practiceCount: int,
    performanceCount: int,
    lastPracticeDate: Option<int>,
    lastPerformanceDate: Option<int>,
    totalPracticeDuration: int,
    averagePracticeLevel: Option<real>)

  function RecountOf(acts: seq<Activity>): Recount
  {
    var pr := Practices(acts);
    var pf := Performances(acts);
    Recount(|pr|, |pf|, MaxOpt(Timestamps(pr)), MaxOpt(Timestamps(pf)), Sum(Map(pr, PracticeDuration)),
            AverageLevel(Map(pr, LevelOf)))
  }

  /** The six checks, in order, of stored statistics against recounted values. */
  function Findings(p: PieceOrTechnique, c: Recount): seq<Inconsistency>
  {
    (if p.practiceCount != c.practiceCount then [PracticeCountMismatch(p.name, p.practiceCount, c.practiceCount)] else [])
    + (if p.performanceCount != c.performanceCount
       then [PerformanceCountMismatch(p.name, p.performanceCount, c.performanceCount)] else [])
    + (if p.lastPracticeDate != c.lastPracticeDate
       then [LastPracticeMismatch(p.name, p.lastPracticeDate, c.lastPracticeDate)] else [])
    + (if p.lastPerformanceDate != c.lastPerformanceDate
       then [LastPerformanceMismatch(p.name, p.lastPerformanceDate, c.lastPerformanceDate)] else [])
    + (if p.totalPracticeDuration != c.totalPracticeDuration
       then [DurationMismatch(p.name, p.totalPracticeDuration, c.totalPracticeDuration)] else [])
    + (if AveragesDiffer(p.averagePracticeLevel, c.averagePracticeLevel)
       then [AverageMismatch(p.name, p.averagePracticeLevel, c.averagePracticeLevel)] else [])
  }

  /** The checks of one piece against the activities with its id. */
  function PieceInconsistencies(p: PieceOrTechnique, all: seq<Activity>): seq<Inconsistency>
  {
    Findings(p, RecountOf(ForPiece(all, p.id)))
  }

  /** The outputs of `f` on the elements of `s`, one after another. */
  function FlatMap<T, U>(s: seq<T>, f: T -> seq<U>): seq<U>
  {
    if |s| == 0 then [] else f(s[0]) + FlatMap(s[1..], f)
  }

  lemma {:induction false} FlatMapEmpty<T, U>(s: seq<T>, f: T -> seq<U>)
    ensures FlatMap(s, f) == [] <==> forall k :: 0 <= k < |s| ==> f(s[k]) == []
  {
    if |s| > 0 {
      FlatMapEmpty(s[1..], f);
      assert forall k :: 1 <= k < |s| ==> s[k] == s[1..][k - 1];
    }
  }

  lemma {:induction false} FlatMapBound<T, U>(s: seq<T>, f: T -> seq<U>, d: nat)
    requires forall k :: 0 <= k < |s| ==> |f(s[k])| <= d
    ensures |FlatMap(s, f)| <= d * |s|
  {
    if |s| > 0 {
      assert forall k :: 1 <= k < |s[1..]| + 1 ==> s[1..][k - 1] == s[k];
      FlatMapBound(s[1..], f, d);
    }
  }

  function PieceCheck(all: seq<Activity>): PieceOrTechnique -> seq<Inconsistency>
  {
    p => PieceInconsistencies(p, all)
  }

  function AllInconsistencies(pieces: seq<PieceOrTechnique>, all: seq<Activity>): seq<Inconsistency>
  {
    FlatMap(pieces, PieceCheck(all))
  }

  /** validateStatistics: valid exactly when no check of any piece found a difference. */
  function ValidateStatistics(pieces: seq<PieceOrTechnique>, all: seq<Activity>): (r: ValidationResult)
    ensures r.isValid <==> |r.inconsistencies| == 0
  {
    var found := AllInconsistencies(pieces, all);
    ValidationResult(|found| == 0, found)
  }

  /**
   * Each check reports exactly when its stored value differs from the
   * recounted one, and a piece yields at most six findings.
   */
  lemma FindingsSpec(p: PieceOrTechnique, c: Recount)
    ensures |Findings(p, c)| <= 6
    ensures (exists e :: e in Findings(p, c) && e.PracticeCountMismatch?) <==> p.practiceCount != c.practiceCount
    ensures (exists e :: e in Findings(p, c) && e.PerformanceCountMismatch?) <==> p.performanceCount != c.performanceCount
    ensures (exists e :: e in Findings(p, c) && e.LastPracticeMismatch?) <==> p.lastPracticeDate != c.lastPracticeDate
    ensures (exists e :: e in Findings(p, c) && e.LastPerformanceMismatch?) <==>
              p.lastPerformanceDate != c.lastPerformanceDate
    ensures (exists e :: e in Findings(p, c) && e.DurationMismatch?) <==> p.totalPracticeDuration != c.totalPracticeDuration
    ensures (exists e :: e in Findings(p, c) && e.AverageMismatch?) <==>
              AveragesDiffer(p.averagePracticeLevel, c.averagePracticeLevel)
  {
    FindingsCounts(p, c);
    FindingsDates(p, c);
    FindingsTotals(p, c);
  }

  lemma FindingsCounts(p: PieceOrTechnique, c: Recount)
    ensures (exists e :: e in Findings(p, c) && e.PracticeCountMismatch?) <==> p.practiceCount != c.practiceCount
    ensures (exists e :: e in Findings(p, c) && e.PerformanceCountMismatch?) <==> p.performanceCount != c.performanceCount
  {
    if p.practiceCount != c.practiceCount {
      assert PracticeCountMismatch(p.name, p.practiceCount, c.practiceCount) in Findings(p, c);
    }
    if p.performanceCount != c.performanceCount {
      assert PerformanceCountMismatch(p.name, p.performanceCount, c.performanceCount) in Findings(p, c);
    }
  }

  lemma FindingsDates(p: PieceOrTechnique, c: Recount)
    ensures (exists e :: e in Findings(p, c) && e.LastPracticeMismatch?) <==> p.lastPracticeDate != c.lastPracticeDate
    ensures (exists e :: e in Findings(p, c) && e.LastPerformanceMismatch?) <==>
              p.lastPerformanceDate != c.lastPerformanceDate
  {
    if p.lastPracticeDate != c.lastPracticeDate {
      assert LastPracticeMismatch(p.name, p.lastPracticeDate, c.lastPracticeDate) in Findings(p, c);
    }
    if p.lastPerformanceDate != c.lastPerformanceDate {
      assert LastPerformanceMismatch(p.name, p.lastPerformanceDate, c.lastPerformanceDate) in Findings(p, c);
    }
  }

  lemma FindingsTotals(p: PieceOrTechnique, c: Recount)
    ensures (exists e :: e in Findings(p, c) && e.DurationMismatch?) <==> p.totalPracticeDuration != c.totalPracticeDuration
    ensures (exists e :: e in Findings(p, c) && e.AverageMismatch?) <==>
              AveragesDiffer(p.averagePracticeLevel, c.averagePracticeLevel)
  {
    if p.totalPracticeDuration != c.totalPracticeDuration {
      assert DurationMismatch(p.name, p.totalPracticeDuration, c.totalPracticeDuration) in Findings(p, c);
    }
    if AveragesDiffer(p.averagePracticeLevel, c.averagePracticeLevel) {
      assert AverageMismatch(p.name, p.averagePracticeLevel, c.averagePracticeLevel) in Findings(p, c);
    }
  }

  /** The recounted values are the recount's statistics: counts, latest dates, duration, average. */
  lemma RecountOfSpec(acts: seq<Activity>)
    ensures var c := RecountOf(acts);
            c.practiceCount + c.performanceCount == |acts|
            && (c.lastPracticeDate.None? <==> forall i :: 0 <= i < |acts| ==> acts[i].activityType != PRACTICE)
            && (c.lastPracticeDate.Some? ==>
                  forall i :: 0 <= i < |acts| && acts[i].activityType == PRACTICE ==> acts[i].timestamp <= c.lastPracticeDate.value)
            && c.totalPracticeDuration >= 0
            && (c.averagePracticeLevel.None? <==>
                  forall i :: 0 <= i < |acts| && acts[i].activityType == PRACTICE ==> acts[i].level <= 0)
  {
    var r := Recalculated(NewPiece(0, "", PIECE, false, 0), acts, 0);
    ConsistentDates(r, acts);
    ConsistentTotals(r, acts);
  }

  /** Statistics that match a recount of the piece's activities draw no finding. */
  lemma ConsistentPieceValid(p: PieceOrTechnique, all: seq<Activity>)
    requires Consistent(p, ForPiece(all, p.id))
    ensures PieceInconsistencies(p, all) == []
  {
  }

  /**
   * A piece without findings has the recounted counts, last dates and
   * duration, and an average present exactly when the recount has one and
   * within the tolerance of it.
   */
  lemma ValidPieceMatches(p: PieceOrTechnique, c: Recount)
    requires Findings(p, c) == []
    ensures p.practiceCount == c.practiceCount && p.performanceCount == c.performanceCount
    ensures p.lastPracticeDate == c.lastPracticeDate && p.lastPerformanceDate == c.lastPerformanceDate
    ensures p.totalPracticeDuration == c.totalPracticeDuration
    ensures p.averagePracticeLevel.None? <==> c.averagePracticeLevel.None?
    ensures c.averagePracticeLevel.Some? ==>
              Abs(p.averagePracticeLevel.value - c.averagePracticeLevel.value) <= AVERAGE_TOLERANCE
  {
    FindingsSpec(p, c);
  }

  /** The check passes exactly when every piece passes, with at most six findings per piece. */
  lemma ValidateStatisticsSpec(pieces: seq<PieceOrTechnique>, all: seq<Activity>)
    ensures ValidateStatistics(pieces, all).isValid <==>
              forall k :: 0 <= k < |pieces| ==> PieceInconsistencies(pieces[k], all) == []
    ensures |ValidateStatistics(pieces, all).inconsistencies| <= 6 * |pieces|
  {
    var f := PieceCheck(all);
    FlatMapEmpty(pieces, f);
    forall k | 0 <= k < |pieces| ensures |f(pieces[k])| <= 6 {
      FindingsSpec(pieces[k], RecountOf(ForPiece(all, pieces[k].id)));
    }
    FlatMapBound(pieces, f, 6);
  }

  /** Right after every piece's statistics were recounted, the check passes. */
  lemma ValidAfterRecount(pieces: seq<PieceOrTechnique>, all: seq<Activity>)
    requires forall k :: 0 <= k < |pieces| ==> Consistent(pieces[k], ForPiece(all, pieces[k].id))
    ensures ValidateStatistics(pieces, all).isValid
  {
    ValidateStatisticsSpec(pieces, all);
    forall k | 0 <= k < |pieces|
      ensures PieceInconsistencies(pieces[k], all) == []
    {
      ConsistentPieceValid(pieces[k], all);
    }
  }

  /** A piece recounted from the activities with its id draws no finding. */
  lemma RecalculatedValid(p: PieceOrTechnique, all: seq<Activity>, now: int)
    ensures PieceInconsistencies(Recalculated(p, ForPiece(all, p.id), now), all) == []
  {
    var r := Recalculated(p, ForPiece(all, p.id), now);
    ConsistentPieceValid(r, all);
  }
}
