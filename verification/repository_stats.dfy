/**
 * The statistics the repository keeps on each piece: the recount run after an
 * activity is edited or deleted (recalculatePieceStatistics) and the
 * incremental update run after one is inserted (updatePieceStatistics with the
 * DAO's update queries). The clock is the parameter `now`; a piece's
 * activities are passed in, as the DAO query would return them.
 */
module RepositoryStats {
  import opened Wrappers
  import opened Seqs
  import opened Sorting
  import opened Decimal
  import opened Entities
  import opened StatsHelper

  /** The minutes a practice adds to the total: its minutes when positive, nothing otherwise. */
  function PracticeDuration(a: Activity): int
  {
    if a.minutes > 0 then a.minutes else 0
  }

  function LevelOf(a: Activity): int
  {
    a.level
  }

  function Practices(acts: seq<Activity>): seq<Activity>
  {
    OfType(acts, PRACTICE)
  }

  function Performances(acts: seq<Activity>): seq<Activity>
  {
    OfType(acts, PERFORMANCE)
  }

  /** Every timestamp fits a Kotlin Long, as the entity's field type guarantees. */
  predicate LongTimestamps(acts: seq<Activity>)
  {
    forall i :: 0 <= i < |acts| ==> LONG_MIN <= acts[i].timestamp <= LONG_MAX
  }

  /** The stored statistics of `p` are what a recount of `acts`, its activities, gives. */
  predicate Consistent(p: PieceOrTechnique, acts: seq<Activity>)
  {
    var pr := Practices(acts);
    var pf := Performances(acts);
    p.practiceCount == |pr| && p.performanceCount == |pf|
    && p.lastPracticeDate == MaxOpt(Timestamps(pr))
    && p.lastPerformanceDate == MaxOpt(Timestamps(pf))
    && p.totalPracticeDuration == Sum(Map(pr, PracticeDuration))
    && p.averagePracticeLevel == AverageLevel(Map(pr, LevelOf))
    && p.lastThreePractices == TimestampsToJson(TopK(Timestamps(pr), 3))
    && p.lastThreePerformances == TimestampsToJson(TopK(Timestamps(pf), 3))
  }

  /**
   * recalculatePieceStatistics on a piece with activities `acts`. Sorting the
   * activities by descending timestamp and keeping the first three timestamps
   * gives the same list as the three largest timestamps, which is how it is
   * written here.
   */
  function Recalculated(p: PieceOrTechnique, acts: seq<Activity>, now: int): (r: PieceOrTechnique)
    ensures r.id == p.id && r.name == p.name && r.itemType == p.itemType && r.isFavorite == p.isFavorite
    ensures r.dateCreated == p.dateCreated && r.lastSatisfactoryPractice == p.lastSatisfactoryPractice
    ensures r.lastSatisfactoryPerformance == p.lastSatisfactoryPerformance
    ensures r.secondLastPracticeDate == p.secondLastPracticeDate && r.thirdLastPracticeDate == p.thirdLastPracticeDate
    ensures r.secondLastPerformanceDate == p.secondLastPerformanceDate
    ensures r.thirdLastPerformanceDate == p.thirdLastPerformanceDate
    ensures r.lastUpdated == now
    ensures Consistent(r, acts)
  {
    var pr := Practices(acts);
    var pf := Performances(acts);
    p.(practiceCount := |pr|,
       performanceCount := |pf|,
       lastPracticeDate := MaxOpt(Timestamps(pr)),
       lastPerformanceDate := MaxOpt(Timestamps(pf)),
       totalPracticeDuration := Sum(Map(pr, PracticeDuration)),
       averagePracticeLevel := AverageLevel(Map(pr, LevelOf)),
       lastUpdated := now,
       lastThreePractices := TimestampsToJson(TopK(Timestamps(pr), 3)),
       lastThreePerformances := TimestampsToJson(TopK(Timestamps(pf), 3)))
  }

  /** Practices and performances split the activities. */
  lemma {:induction false} TypesPartition(acts: seq<Activity>)
    ensures |Practices(acts)| + |Performances(acts)| == |acts|
  {
    if |acts| > 0 {
      TypesPartition(acts[1..]);
      assert acts == [acts[0]] + acts[1..];
      FilterCons(acts[0], acts[1..], (a: Activity) => a.activityType == PRACTICE);
      FilterCons(acts[0], acts[1..], (a: Activity) => a.activityType == PERFORMANCE);
    }
  }

  /** The timestamps of the activities of one type are exactly the timestamps of such activities. */
  lemma TimestampsOfType(acts: seq<Activity>, t: ActivityType, x: int)
    ensures x in Timestamps(OfType(acts, t)) <==>
              exists i :: 0 <= i < |acts| && acts[i].activityType == t && acts[i].timestamp == x
  {
    var f := OfType(acts, t);
    var ts := Timestamps(f);
    if x in ts {
      var j :| 0 <= j < |ts| && ts[j] == x;
      assert f[j] in acts;
      var i :| 0 <= i < |acts| && acts[i] == f[j];
    }
    if exists i :: 0 <= i < |acts| && acts[i].activityType == t && acts[i].timestamp == x {
      var i :| 0 <= i < |acts| && acts[i].activityType == t && acts[i].timestamp == x;
      FilterMembership(acts, (a: Activity) => a.activityType == t, acts[i]);
      var j :| 0 <= j < |f| && f[j] == acts[i];
      assert ts[j] == x;
    }
  }

  /** The latest timestamp of a type: absent exactly when there is no such activity, else the largest. */
  lemma LatestOfType(acts: seq<Activity>, t: ActivityType)
    ensures var m := MaxOpt(Timestamps(OfType(acts, t)));
            (m.None? <==> forall i :: 0 <= i < |acts| ==> acts[i].activityType != t)
            && (m.Some? ==> (exists i :: 0 <= i < |acts| && acts[i].activityType == t && acts[i].timestamp == m.value)
                            && forall i :: 0 <= i < |acts| && acts[i].activityType == t ==> acts[i].timestamp <= m.value)
  {
    var m := MaxOpt(Timestamps(OfType(acts, t)));
    FilterNonEmpty(acts, (a: Activity) => a.activityType == t);
    if m.Some? {
      TimestampsOfType(acts, t, m.value);
      forall i | 0 <= i < |acts| && acts[i].activityType == t
        ensures acts[i].timestamp <= m.value
      {
        TimestampsOfType(acts, t, acts[i].timestamp);
      }
    }
  }

  /** A sum of non-negative terms is non-negative. */
  lemma {:induction false} DurationsNonNegative(pr: seq<Activity>)
    ensures Sum(Map(pr, PracticeDuration)) >= 0
  {
    if |pr| > 0 {
      DurationsNonNegative(pr[1..]);
      MapCons(pr[0], pr[1..], PracticeDuration);
      assert pr == [pr[0]] + pr[1..];
    }
  }

  /** No average exactly when no practice has a positive level. */
  lemma AverageAbsent(acts: seq<Activity>)
    ensures AverageLevel(Map(Practices(acts), LevelOf)).None? <==>
              forall i :: 0 <= i < |acts| && acts[i].activityType == PRACTICE ==> acts[i].level <= 0
  {
    var pr := Practices(acts);
    var levels := Map(pr, LevelOf);
    if AverageLevel(levels).None? {
      forall i | 0 <= i < |acts| && acts[i].activityType == PRACTICE
        ensures acts[i].level <= 0
      {
        FilterMembership(acts, (a: Activity) => a.activityType == PRACTICE, acts[i]);
        var j :| 0 <= j < |pr| && pr[j] == acts[i];
        assert levels[j] == acts[i].level;
      }
    } else {
      var j :| 0 <= j < |levels| && levels[j] > 0;
      assert pr[j] in acts && pr[j].activityType == PRACTICE;
      var i :| 0 <= i < |acts| && acts[i] == pr[j];
      assert acts[i].level > 0;
    }
  }

  /** The recent list of a type reads back as its at most three latest timestamps, latest first. */
  lemma RecentOfType(ts: seq<int>)
    requires InLongRange(ts)
    ensures var kept := JsonToTimestamps(TimestampsToJson(TopK(ts, 3)));
            kept == TopK(ts, 3) && IsDescending(kept) && |kept| == (if |ts| <= 3 then |ts| else 3)
            && multiset(kept) <= multiset(ts)
            && forall x, y :: x in multiset(ts) - multiset(kept) && y in kept ==> x <= y
  {
    TopKSpec(ts, 3);
    var top := TopK(ts, 3);
    forall i | 0 <= i < |top| ensures LONG_MIN <= top[i] <= LONG_MAX {
      assert top[i] in multiset(ts);
    }
    TimestampsRoundTrip(top);
  }

  lemma TimestampsInRange(acts: seq<Activity>, t: ActivityType)
    requires LongTimestamps(acts)
    ensures InLongRange(Timestamps(OfType(acts, t)))
  {
    var f := OfType(acts, t);
    forall j | 0 <= j < |f| ensures LONG_MIN <= f[j].timestamp <= LONG_MAX {
      assert f[j] in acts;
    }
  }

  /**
   * Consistent counts split the activities by type, and consistent last
   * dates are the latest timestamp of each type, absent when there is none.
   */
  lemma ConsistentDates(r: PieceOrTechnique, acts: seq<Activity>)
    requires Consistent(r, acts)
    ensures r.practiceCount + r.performanceCount == |acts|
    ensures r.lastPracticeDate.None? <==> forall i :: 0 <= i < |acts| ==> acts[i].activityType != PRACTICE
    ensures r.lastPracticeDate.Some? ==>
              (exists i :: 0 <= i < |acts| && acts[i].activityType == PRACTICE && acts[i].timestamp == r.lastPracticeDate.value)
              && forall i :: 0 <= i < |acts| && acts[i].activityType == PRACTICE ==> acts[i].timestamp <= r.lastPracticeDate.value
    ensures r.lastPerformanceDate.None? <==> forall i :: 0 <= i < |acts| ==> acts[i].activityType != PERFORMANCE
    ensures r.lastPerformanceDate.Some? ==>
              (exists i :: 0 <= i < |acts| && acts[i].activityType == PERFORMANCE
                           && acts[i].timestamp == r.lastPerformanceDate.value)
              && forall i :: 0 <= i < |acts| && acts[i].activityType == PERFORMANCE ==>
                   acts[i].timestamp <= r.lastPerformanceDate.value
  {
    TypesPartition(acts);
    LatestOfType(acts, PRACTICE);
    LatestOfType(acts, PERFORMANCE);
  }

  /**
   * A consistent duration is never negative, and a consistent average is
   * absent exactly when no practice has a positive level.
   */
  lemma ConsistentTotals(r: PieceOrTechnique, acts: seq<Activity>)
    requires Consistent(r, acts)
    ensures r.totalPracticeDuration >= 0
    ensures r.averagePracticeLevel.None? <==>
              forall i :: 0 <= i < |acts| && acts[i].activityType == PRACTICE ==> acts[i].level <= 0
  {
    DurationsNonNegative(Practices(acts));
    AverageAbsent(acts);
  }

  /** Consistent recent lists hold the (at most) three latest timestamps of each type, latest first. */
  lemma ConsistentRecent(r: PieceOrTechnique, acts: seq<Activity>)
    requires Consistent(r, acts)
    requires LongTimestamps(acts)
    ensures JsonToTimestamps(r.lastThreePractices) == TopK(Timestamps(Practices(acts)), 3)
    ensures IsDescending(JsonToTimestamps(r.lastThreePractices))
    ensures |JsonToTimestamps(r.lastThreePractices)| == Min(3, r.practiceCount)
    ensures JsonToTimestamps(r.lastThreePerformances) == TopK(Timestamps(Performances(acts)), 3)
    ensures IsDescending(JsonToTimestamps(r.lastThreePerformances))
    ensures |JsonToTimestamps(r.lastThreePerformances)| == Min(3, r.performanceCount)
  {
    TimestampsInRange(acts, PRACTICE);
    TimestampsInRange(acts, PERFORMANCE);
    RecentOfType(Timestamps(Practices(acts)));
    RecentOfType(Timestamps(Performances(acts)));
  }

  /**
   * recalculatePieceStatistics against the piece table: the piece with that
   * id, when there is one, gets the recount of its activities; every other
   * piece, and a table without that id, is left alone.
   */
  function RecalculatePiece(table: map<int, PieceOrTechnique>, all: seq<Activity>, pieceId: int, now: int)
    : (r: map<int, PieceOrTechnique>)
    ensures r.Keys == table.Keys
    ensures pieceId in table ==> Consistent(r[pieceId], ForPiece(all, pieceId)) && r[pieceId].id == table[pieceId].id
    ensures forall k :: k in table && k != pieceId ==> r[k] == table[k]
  {
    if pieceId in table then table[pieceId := Recalculated(table[pieceId], ForPiece(all, pieceId), now)] else table
  }

  // ---------------------------------------------------------------------------
  // The incremental update after an insertion.

  /** The latest of a stored date and a new timestamp. */
  function Later(stored: Option<int>, t: int): (r: Option<int>)
    ensures r.Some? && (r.value == t || stored == r) && t <= r.value
    ensures stored.Some? ==> stored.value <= r.value
  {
    if stored.None? || t >= stored.value then Some(t) else stored
  }

  /**
   * The average after updateAveragePracticeLevel: rewritten from the piece's
   * practices when one has a positive level, kept otherwise.
   */
  function RefreshedAverage(stored: Option<real>, after: seq<Activity>): (r: Option<real>)
  {
    var avg := AverageLevel(Map(Practices(after), LevelOf));
    if avg.Some? then avg else stored
  }

  /**
   * updatePieceStatistics as the DAO's update queries write it: a practice adds
   * one to the count and its positive minutes to the total, becomes the last
   * practice date, joins the recent list and, with a positive level, has the
   * average recomputed; a performance likewise. `after` is the piece's
   * activities once `a` is stored.
   */
  function InsertedStatsAsWritten(p: PieceOrTechnique, a: Activity, after: seq<Activity>, now: int)
    : (r: PieceOrTechnique)
    requires LONG_MIN <= a.timestamp <= LONG_MAX
    ensures r.id == p.id && r.name == p.name && r.itemType == p.itemType
    ensures r.practiceCount == p.practiceCount + (if a.activityType == PRACTICE then 1 else 0)
    ensures r.performanceCount == p.performanceCount + (if a.activityType == PERFORMANCE then 1 else 0)
    ensures a.activityType == PRACTICE ==> r.lastPracticeDate == Some(a.timestamp) && r.lastPerformanceDate == p.lastPerformanceDate
    ensures a.activityType == PERFORMANCE ==> r.lastPerformanceDate == Some(a.timestamp) && r.lastPracticeDate == p.lastPracticeDate
  {
    match a.activityType
    case PRACTICE =>
      var q := p.(practiceCount := p.practiceCount + 1,
                  lastPracticeDate := Some(a.timestamp),
                  totalPracticeDuration := p.totalPracticeDuration + PracticeDuration(a),
                  lastUpdated := a.timestamp,
                  lastThreePractices := AddTimestampToRecent(p.lastThreePractices, a.timestamp));
      if a.level > 0 && AverageLevel(Map(Practices(after), LevelOf)).Some?
      then q.(averagePracticeLevel := RefreshedAverage(p.averagePracticeLevel, after), lastUpdated := now)
      else q
    case PERFORMANCE =>
      p.(performanceCount := p.performanceCount + 1,
         lastPerformanceDate := Some(a.timestamp),
         lastUpdated := a.timestamp,
         lastThreePerformances := AddTimestampToRecent(p.lastThreePerformances, a.timestamp))
  }

  /** The incremental update with the last date kept when the new activity is older. */
  function InsertedStats(p: PieceOrTechnique, a: Activity, after: seq<Activity>, now: int)
    : (r: PieceOrTechnique)
    requires LONG_MIN <= a.timestamp <= LONG_MAX
    ensures r.id == p.id && r.name == p.name && r.itemType == p.itemType
  {
    var q := InsertedStatsAsWritten(p, a, after, now);
    match a.activityType
    case PRACTICE => q.(lastPracticeDate := Later(p.lastPracticeDate, a.timestamp))
    case PERFORMANCE => q.(lastPerformanceDate := Later(p.lastPerformanceDate, a.timestamp))
  }

  /** Appending one activity adds it to the activities of its own type only. */
  lemma OfTypeSnoc(acts: seq<Activity>, a: Activity, t: ActivityType)
    ensures OfType(acts + [a], t) == OfType(acts, t) + (if a.activityType == t then [a] else [])
  {
    FilterConcat(acts, [a], (b: Activity) => b.activityType == t);
  }

  lemma TimestampsSnoc(acts: seq<Activity>, a: Activity)
    ensures Timestamps(acts + [a]) == Timestamps(acts) + [a.timestamp]
  {
  }

  /** The three latest after one more timestamp, from the three latest before it. */
  lemma RecentSnoc(ts: seq<int>, t: int)
    requires InLongRange(ts) && LONG_MIN <= t <= LONG_MAX
    ensures AddTimestampToRecent(TimestampsToJson(TopK(ts, 3)), t) == TimestampsToJson(TopK(ts + [t], 3))
  {
    RecentOfType(ts);
    TopKSnoc(ts, t, 3);
  }

  /** The average depends only on the positive levels. */
  lemma AverageLevelByPositive(x: seq<int>, y: seq<int>)
    requires Filter(x, IsPositive) == Filter(y, IsPositive)
    ensures AverageLevel(x) == AverageLevel(y)
  {
  }

  /** One more practice without a positive level leaves the average alone. */
  lemma AverageSnocNonPositive(pr: seq<Activity>, a: Activity)
    requires a.level <= 0
    ensures AverageLevel(Map(pr + [a], LevelOf)) == AverageLevel(Map(pr, LevelOf))
  {
    MapConcat(pr, [a], LevelOf);
    assert Map([a], LevelOf) == [a.level];
    FilterConcat(Map(pr, LevelOf), [a.level], IsPositive);
    assert Filter([a.level], IsPositive) == [];
    AverageLevelByPositive(Map(pr + [a], LevelOf), Map(pr, LevelOf));
  }

  /**
   * The corrected incremental update keeps the statistics consistent: applied
   * to a piece whose statistics match its activities, it gives the
   * statistics a recount of the activities plus the new one gives. In
   * particular a practice adds exactly its positive minutes to the total.
   */
  lemma InsertedStatsConsistent(p: PieceOrTechnique, acts: seq<Activity>, a: Activity, now: int)
    requires Consistent(p, acts)
    requires LongTimestamps(acts) && LONG_MIN <= a.timestamp <= LONG_MAX
    ensures Consistent(InsertedStats(p, a, acts + [a], now), acts + [a])
  {
    OfTypeSnoc(acts, a, PRACTICE);
    OfTypeSnoc(acts, a, PERFORMANCE);
    TimestampsInRange(acts, PRACTICE);
    TimestampsInRange(acts, PERFORMANCE);
    if a.activityType == PRACTICE {
      InsertedPracticeConsistent(p, acts, a, now);
    } else {
      InsertedPerformanceConsistent(p, acts, a, now);
    }
  }

  /** The fields the update writes for a practice, and those it leaves. */
  lemma InsertedPracticeFields(p: PieceOrTechnique, a: Activity, after: seq<Activity>, now: int)
    requires a.activityType == PRACTICE && LONG_MIN <= a.timestamp <= LONG_MAX
    ensures var r := InsertedStats(p, a, after, now);
            var avg := AverageLevel(Map(Practices(after), LevelOf));
            r.practiceCount == p.practiceCount + 1 && r.performanceCount == p.performanceCount
            && r.lastPracticeDate == Later(p.lastPracticeDate, a.timestamp)
            && r.lastPerformanceDate == p.lastPerformanceDate
            && r.totalPracticeDuration == p.totalPracticeDuration + PracticeDuration(a)
            && r.lastThreePractices == AddTimestampToRecent(p.lastThreePractices, a.timestamp)
            && r.lastThreePerformances == p.lastThreePerformances
            && r.averagePracticeLevel == (if a.level > 0 && avg.Some? then avg else p.averagePracticeLevel)
  {
  }

  /** The fields the update writes for a performance, and those it leaves. */
  lemma InsertedPerformanceFields(p: PieceOrTechnique, a: Activity, after: seq<Activity>, now: int)
    requires a.activityType == PERFORMANCE && LONG_MIN <= a.timestamp <= LONG_MAX
    ensures var r := InsertedStats(p, a, after, now);
            r.practiceCount == p.practiceCount && r.performanceCount == p.performanceCount + 1
            && r.lastPracticeDate == p.lastPracticeDate
            && r.lastPerformanceDate == Later(p.lastPerformanceDate, a.timestamp)
            && r.totalPracticeDuration == p.totalPracticeDuration
            && r.lastThreePractices == p.lastThreePractices
            && r.lastThreePerformances == AddTimestampToRecent(p.lastThreePerformances, a.timestamp)
            && r.averagePracticeLevel == p.averagePracticeLevel
  {
  }

  lemma InsertedPracticeConsistent(p: PieceOrTechnique, acts: seq<Activity>, a: Activity, now: int)
    requires a.activityType == PRACTICE && LONG_MIN <= a.timestamp <= LONG_MAX
    requires Consistent(p, acts)
    requires Practices(acts + [a]) == Practices(acts) + [a] && Performances(acts + [a]) == Performances(acts)
    requires InLongRange(Timestamps(Practices(acts)))
    ensures Consistent(InsertedStats(p, a, acts + [a], now), acts + [a])
  {
    var pr := Practices(acts);
    InsertedPracticeFields(p, a, acts + [a], now);
    LatestSnoc(pr, a);
    DurationSnoc(pr, a);
    RecentSnoc(Timestamps(pr), a.timestamp);
    TimestampsSnoc(pr, a);
    AverageSnoc(pr, a);
  }

  /** The latest timestamp after one more activity. */
  lemma LatestSnoc(xs: seq<Activity>, a: Activity)
    ensures MaxOpt(Timestamps(xs + [a])) == Later(MaxOpt(Timestamps(xs)), a.timestamp)
  {
    TimestampsSnoc(xs, a);
    MaxOptSnoc(Timestamps(xs), a.timestamp);
  }

  /** The total after one more practice grows by its positive minutes. */
  lemma DurationSnoc(pr: seq<Activity>, a: Activity)
    ensures Sum(Map(pr + [a], PracticeDuration)) == Sum(Map(pr, PracticeDuration)) + PracticeDuration(a)
  {
    MapConcat(pr, [a], PracticeDuration);
    assert Map([a], PracticeDuration) == [PracticeDuration(a)];
    SumConcat(Map(pr, PracticeDuration), [PracticeDuration(a)]);
    assert Sum([PracticeDuration(a)]) == PracticeDuration(a);
  }

  /** The average after one more practice: recomputed when its level is positive, unchanged otherwise. */
  lemma AverageSnoc(pr: seq<Activity>, a: Activity)
    ensures var avg := AverageLevel(Map(pr + [a], LevelOf));
            avg == (if a.level > 0 && avg.Some? then avg else AverageLevel(Map(pr, LevelOf)))
  {
    if a.level <= 0 {
      AverageSnocNonPositive(pr, a);
    } else {
      var levels := Map(pr + [a], LevelOf);
      assert levels[|pr|] == a.level;
    }
  }

  lemma InsertedPerformanceConsistent(p: PieceOrTechnique, acts: seq<Activity>, a: Activity, now: int)
    requires a.activityType == PERFORMANCE && LONG_MIN <= a.timestamp <= LONG_MAX
    requires Consistent(p, acts)
    requires Practices(acts + [a]) == Practices(acts) && Performances(acts + [a]) == Performances(acts) + [a]
    requires InLongRange(Timestamps(Performances(acts)))
    ensures Consistent(InsertedStats(p, a, acts + [a], now), acts + [a])
  {
    var pf := Performances(acts);
    InsertedPerformanceFields(p, a, acts + [a], now);
    LatestSnoc(pf, a);
    RecentSnoc(Timestamps(pf), a.timestamp);
    TimestampsSnoc(pf, a);
  }

  /**
   * The update as written breaks consistency for an activity logged with an
   * earlier time than the latest one: after a practice at 2000 and then one
   * at 1000, the stored last practice date is 1000 while a recount gives 2000.
   */
  lemma InsertedStatsAsWrittenBackdated()
    ensures var later := Activity(1, 2000, 7, PRACTICE, 3, "", 10, "");
            var earlier := Activity(2, 1000, 7, PRACTICE, 3, "", 10, "");
            var p := Recalculated(NewPiece(7, "Etude", PIECE, false, 0), [later], 0);
            Consistent(p, [later])
            && InsertedStatsAsWritten(p, earlier, [later, earlier], 0).lastPracticeDate == Some(1000)
            && Recalculated(p, [later, earlier], 0).lastPracticeDate == Some(2000)
            && !Consistent(InsertedStatsAsWritten(p, earlier, [later, earlier], 0), [later, earlier])
  {
    var later := Activity(1, 2000, 7, PRACTICE, 3, "", 10, "");
    var earlier := Activity(2, 1000, 7, PRACTICE, 3, "", 10, "");
    var both := [later, earlier];
    assert both == [later] + [earlier];
    OfTypeSnoc([later], earlier, PRACTICE);
    assert Practices([later]) == [later];
    assert Practices(both) == both;
    assert Timestamps(both) == [2000, 1000];
    assert MaxOpt([2000, 1000]) == Some(2000);
  }
}
