/**
 * Streak arithmetic (StreakCalculator.kt): the current run of active days,
 * the day a streak milestone was first reached, and all multi-day streaks.
 * Days are 24-hour windows; a timestamp's day is its floor division by
 * DAY_MS, and the day keys the source sorts are these day indices.
 */
module Streak {
  import opened Wrappers
  import opened Seqs
  import opened Entities

  // ---------------------------------------------------------------------------
  // The current streak.

  /** Some timestamp lies in the day that starts at `dayStart` (the `any` test of the loop). */
  predicate ActiveDay(ts: seq<int>, dayStart: int)
  {
    exists i :: 0 <= i < |ts| && dayStart <= ts[i] < dayStart + DAY_MS
  }

  /** Counting starts today when today has an activity, otherwise yesterday. */
  function StreakStart(ts: seq<int>, todayStart: int): (start: int)
    ensures start == todayStart || start == todayStart - DAY_MS
    ensures start == todayStart <==> ActiveDay(ts, todayStart)
  {
    if ActiveDay(ts, todayStart) then todayStart else todayStart - DAY_MS
  }

  /** The start of the day `n` days before the day starting at `dayStart`. */
  function Back(dayStart: int, n: nat): int
    decreases n
  {
    if n == 0 then dayStart else Back(dayStart - DAY_MS, n - 1)
  }

  lemma {:induction false} BackIsProduct(dayStart: int, n: nat)
    decreases n
    ensures Back(dayStart, n) == dayStart - n * DAY_MS
  {
    if n > 0 {
      BackIsProduct(dayStart - DAY_MS, n - 1);
    }
  }

  /** The n days ending with the day that starts at `dayStart` are all active. */
  ghost predicate ActiveBack(ts: seq<int>, dayStart: int, n: nat)
  {
    forall k: nat :: k < n ==> ActiveDay(ts, Back(dayStart, k))
  }

  /** The length of the run of active days ending at `dayStart`, counted one day back at a time. */
  function RunBack(ts: seq<int>, dayStart: int): (n: nat)
    decreases if ActiveDay(ts, dayStart) then dayStart - MinOpt(ts).value + DAY_MS else 0
    ensures ActiveBack(ts, dayStart, n)
    ensures !ActiveDay(ts, Back(dayStart, n))
  {
    if ActiveDay(ts, dayStart) then
      var i :| 0 <= i < |ts| && dayStart <= ts[i] < dayStart + DAY_MS;
      assert ts[i] in ts;
      var rest := RunBack(ts, dayStart - DAY_MS);
      assert forall k: nat :: 1 <= k ==> Back(dayStart, k) == Back(dayStart - DAY_MS, k - 1);
      rest + 1
    else 0
  }

  /** calculateCurrentStreak, with the start of today as a parameter. */
  function CurrentStreak(ts: seq<int>, todayStart: int): (n: nat)
    ensures |ts| == 0 ==> n == 0
    ensures ActiveBack(ts, StreakStart(ts, todayStart), n)
    ensures !ActiveDay(ts, Back(StreakStart(ts, todayStart), n))
  {
    if |ts| == 0 then 0 else RunBack(ts, StreakStart(ts, todayStart))
  }

  /** The run characterisation determines the streak: no other length has it. */
  lemma CurrentStreakUnique(ts: seq<int>, todayStart: int, m: nat)
    requires ActiveBack(ts, StreakStart(ts, todayStart), m)
    requires !ActiveDay(ts, Back(StreakStart(ts, todayStart), m))
    ensures CurrentStreak(ts, todayStart) == m
  {
  }

  /** With no activity today or yesterday there is no streak. */
  lemma CurrentStreakIdle(ts: seq<int>, todayStart: int)
    requires !ActiveDay(ts, todayStart) && !ActiveDay(ts, todayStart - DAY_MS)
    ensures CurrentStreak(ts, todayStart) == 0
  {
  }

  /** An activity today makes the streak at least one day long. */
  lemma CurrentStreakToday(ts: seq<int>, todayStart: int)
    requires ActiveDay(ts, todayStart)
    ensures CurrentStreak(ts, todayStart) >= 1
  {
    assert Back(StreakStart(ts, todayStart), 0) == todayStart;
  }

  // ---------------------------------------------------------------------------
  // Distinct active days.

  /** The day a timestamp falls in: floor division by the length of a day. */
  function DayIndex(ts: int): int
  {
    ts / DAY_MS
  }

  /** The timestamp lies in the window of its day, which starts at its day index times DAY_MS. */
  lemma DayIndexWindow(ts: int)
    ensures DayIndex(ts) * DAY_MS <= ts < DayIndex(ts) * DAY_MS + DAY_MS
  {
  }

  predicate StrictlyIncreasing(s: seq<int>)
  {
    forall i, j :: 0 <= i < j < |s| ==> s[i] < s[j]
  }

  /** Inserts `x` into a strictly increasing sequence unless it is already there. */
  function InsertDistinct(x: int, s: seq<int>): (r: seq<int>)
    requires StrictlyIncreasing(s)
    ensures StrictlyIncreasing(r)
    ensures forall y :: y in r <==> y in s || y == x
    ensures |r| <= |s| + 1
  {
    if |s| == 0 then [x]
    else if x < s[0] then [x] + s
    else if x == s[0] then s
    else
      var rest := InsertDistinct(x, s[1..]);
      assert forall y :: y in rest ==> s[0] < y;
      [s[0]] + rest
  }

  /** `groupBy { day }.keys.sorted()`: the distinct values of `s` in increasing order. */
  function SortedDistinct(s: seq<int>): (r: seq<int>)
    ensures StrictlyIncreasing(r)
    ensures forall y :: y in r <==> y in s
    ensures |r| <= |s|
    ensures |s| > 0 ==> |r| > 0
  {
    if |s| == 0 then []
    else
      var rest := SortedDistinct(s[..|s| - 1]);
      assert s == s[..|s| - 1] + [s[|s| - 1]];
      var r := InsertDistinct(s[|s| - 1], rest);
      assert s[|s| - 1] in r;
      r
  }

  /** The distinct active days of the activities, in increasing order. */
  function ActiveDays(ts: seq<int>): (ds: seq<int>)
    ensures StrictlyIncreasing(ds)
    ensures forall d :: d in ds <==> exists i :: 0 <= i < |ts| && DayIndex(ts[i]) == d
    ensures |ds| <= |ts| && (|ts| > 0 ==> |ds| > 0)
  {
    var days := Map(ts, DayIndex);
    assert forall d :: d in days <==> exists i :: 0 <= i < |ts| && DayIndex(ts[i]) == d by {
      forall d ensures d in days ==> exists i :: 0 <= i < |ts| && DayIndex(ts[i]) == d {
        if d in days {
          var i :| 0 <= i < |days| && days[i] == d;
          assert DayIndex(ts[i]) == d;
        }
      }
    }
    SortedDistinct(days)
  }

  /** Entries i - 1 and i are consecutive days. */
  predicate NextDay(ds: seq<int>, i: int)
  {
    1 <= i < |ds| && ds[i] - ds[i - 1] == 1
  }

  /** The m entries ending at index j are consecutive days. */
  predicate RunEndsAt(ds: seq<int>, j: int, m: int)
  {
    0 <= j < |ds| && m >= 1 && j - m + 1 >= 0 && forall t :: j - m + 1 < t <= j ==> NextDay(ds, t)
  }

  /** The day k days before day d. */
  function DayBefore(d: int, k: int): int
  {
    d - k
  }

  /** The m days ending with day d are all in the list. */
  ghost predicate DaysRun(ds: seq<int>, d: int, m: int)
  {
    m >= 1 && forall k :: 0 <= k < m ==> DayBefore(d, k) in ds
  }

  /** In a strictly increasing list, consecutive entries are consecutive days. */
  lemma {:induction false} RunEndsAtDays(ds: seq<int>, j: int, m: int)
    requires StrictlyIncreasing(ds) && 0 <= j < |ds| && m >= 1
    ensures RunEndsAt(ds, j, m) <==> DaysRun(ds, ds[j], m)
    decreases m
  {
    if m == 1 {
      assert DayBefore(ds[j], 0) == ds[j];
    } else {
      if RunEndsAt(ds, j, m) {
        assert RunEndsAt(ds, j - 1, m - 1);
        RunEndsAtDays(ds, j - 1, m - 1);
        assert NextDay(ds, j);
        forall k | 0 <= k < m
          ensures DayBefore(ds[j], k) in ds
        {
          if k > 0 {
            assert DayBefore(ds[j], k) == DayBefore(ds[j - 1], k - 1);
          } else {
            assert DayBefore(ds[j], k) == ds[j];
          }
        }
      }
      if DaysRun(ds, ds[j], m) {
        assert DayBefore(ds[j], 1) in ds;
        var p :| 0 <= p < |ds| && ds[p] == DayBefore(ds[j], 1);
        PrevDayIndex(ds, j, p);
        var prev := ds[j - 1];
        forall k | 0 <= k < m - 1
          ensures DayBefore(prev, k) in ds
        {
          assert DayBefore(prev, k) == DayBefore(ds[j], k + 1);
        }
        RunEndsAtDays(ds, j - 1, m - 1);
        assert NextDay(ds, j);
      }
    }
  }

  /** In a strictly increasing list, the day before entry j, when present, is entry j - 1. */
  lemma PrevDayIndex(ds: seq<int>, j: int, p: int)
    requires StrictlyIncreasing(ds) && 0 <= j < |ds| && 0 <= p < |ds| && ds[p] == ds[j] - 1
    ensures p == j - 1
  {
    assert p < j;
    assert ds[j - 1] < ds[j];
    assert !(ds[p] < ds[j - 1]);
  }

  // ---------------------------------------------------------------------------
  // The milestone date.

  /** The loop state of the milestone scan: `start` opens the run that reaches index i - 1. */
  ghost predicate ScanState(ds: seq<int>, m: int, start: nat, i: nat)
  {
    start < i <= |ds|
    && (forall t :: start < t < i ==> NextDay(ds, t))
    && (start == 0 || !NextDay(ds, start))
    && (m >= 2 ==> forall j :: 0 <= j < i ==> !RunEndsAt(ds, j, m))
  }

  /**
   * The loop of findStreakMilestoneDate from index i on, returning the index of
   * the milestone day: when a run reaches length m inside the loop, or when the
   * final run is long enough, the day m - 1 entries after the run's start.
   */
  function MilestoneScan(ds: seq<int>, m: int, start: nat, i: nat): (r: Option<nat>)
    requires m >= 1 && ScanState(ds, m, start, i)
    decreases |ds| - i
    ensures r.Some? ==> r.value < |ds|
    ensures m >= 2 && r.Some? ==> RunEndsAt(ds, r.value, m) && forall j :: 0 <= j < r.value ==> !RunEndsAt(ds, j, m)
    ensures m >= 2 && r.None? ==> forall j :: 0 <= j < |ds| ==> !RunEndsAt(ds, j, m)
    ensures m == 1 ==> r.Some?
  {
    if i == |ds| then
      if |ds| - start >= m then Some(start + m - 1) else None
    else if NextDay(ds, i) then
      if i - start + 1 >= m then Some(start + m - 1)
      else
        ScanShortRun(ds, m, start, i);
        MilestoneScan(ds, m, start, i + 1)
    else
      ScanBreak(ds, m, start, i);
      MilestoneScan(ds, m, i, i + 1)
  }

  /** A run shorter than m cannot end at index i. */
  lemma ScanShortRun(ds: seq<int>, m: int, start: nat, i: nat)
    requires m >= 1 && ScanState(ds, m, start, i) && i < |ds| && NextDay(ds, i) && i - start + 1 < m
    ensures ScanState(ds, m, start, i + 1)
  {
    if start > 0 {
      assert !NextDay(ds, start);
    }
  }

  /** After a break a new run opens at index i. */
  lemma ScanBreak(ds: seq<int>, m: int, start: nat, i: nat)
    requires m >= 1 && ScanState(ds, m, start, i) && i < |ds| && !NextDay(ds, i)
    ensures ScanState(ds, m, i, i + 1)
  {
  }

  /** The index of the milestone day among the sorted distinct days, as findStreakMilestoneDate computes it. */
  function MilestoneIndex(ds: seq<int>, m: int): (r: Option<nat>)
    requires m >= 1
    ensures r.Some? ==> r.value < |ds|
    ensures m >= 2 && r.Some? ==> RunEndsAt(ds, r.value, m) && forall j :: 0 <= j < r.value ==> !RunEndsAt(ds, j, m)
    ensures r.None? ==> |ds| < m || forall j :: 0 <= j < |ds| ==> !RunEndsAt(ds, j, m)
  {
    if |ds| < m then None else MilestoneScan(ds, m, 0, 1)
  }

  /**
   * findStreakMilestoneDate: the start of the day on which a run of `m`
   * consecutive active days was first completed; None for no activities, a
   * milestone below 1, too few active days, or no such run.
   */
  function MilestoneDate(ts: seq<int>, m: int): (r: Option<int>)
    ensures |ts| == 0 || m <= 0 || |ActiveDays(ts)| < m ==> r.None?
    ensures r.Some? ==> exists d :: d in ActiveDays(ts) && r.value == d * DAY_MS
  {
    if |ts| == 0 || m <= 0 then None
    else
      var ds := ActiveDays(ts);
      var j := MilestoneIndex(ds, m);
      if j.None? then None
      else
        assert ds[j.value] in ds;
        Some(ds[j.value] * DAY_MS)
  }

  /**
   * For milestones of two days or more, the result is the earliest active day
   * that ends a run of `m` consecutive active days, and None when there is none.
   */
  lemma {:induction false} MilestoneDateEarliest(ts: seq<int>, m: int)
    requires m >= 2
    ensures MilestoneDate(ts, m).Some? ==>
              exists d :: d in ActiveDays(ts) && MilestoneDate(ts, m).value == d * DAY_MS
                          && DaysRun(ActiveDays(ts), d, m)
                          && forall e :: e in ActiveDays(ts) && e < d ==> !DaysRun(ActiveDays(ts), e, m)
    ensures MilestoneDate(ts, m).None? ==> forall d :: d in ActiveDays(ts) ==> !DaysRun(ActiveDays(ts), d, m)
  {
    var ds := ActiveDays(ts);
    if |ts| > 0 {
      var j := MilestoneIndex(ds, m);
      if j.Some? {
        var d := ds[j.value];
        RunEndsAtDays(ds, j.value, m);
        forall e | e in ds && e < d
          ensures !DaysRun(ds, e, m)
        {
          var k :| 0 <= k < |ds| && ds[k] == e;
          RunEndsAtDays(ds, k, m);
        }
      } else {
        forall d | d in ds
          ensures !DaysRun(ds, d, m)
        {
          var k :| 0 <= k < |ds| && ds[k] == d;
          RunEndsAtDays(ds, k, m);
          if |ds| < m && DaysRun(ds, d, m) {
            DaysRunNeedsDays(ds, d, m);
          }
        }
      }
    }
  }

  /** m distinct days cannot all be in a list shorter than m. */
  lemma DaysRunNeedsDays(ds: seq<int>, d: int, m: int)
    requires StrictlyIncreasing(ds) && DaysRun(ds, d, m)
    ensures |ds| >= m
  {
    assert DayBefore(d, 0) in ds;
    var k :| 0 <= k < |ds| && ds[k] == d;
    DaysBeforeIndex(ds, k, m - 1);
  }

  /** When the n days before entry k are all present, they occupy the n entries before it. */
  lemma {:induction false} DaysBeforeIndex(ds: seq<int>, k: int, n: nat)
    requires StrictlyIncreasing(ds) && 0 <= k < |ds|
    requires forall t :: 0 <= t <= n ==> DayBefore(ds[k], t) in ds
    ensures k >= n
    decreases n
  {
    if n > 0 {
      assert DayBefore(ds[k], 1) in ds;
      var p :| 0 <= p < |ds| && ds[p] == DayBefore(ds[k], 1);
      PrevDayIndex(ds, k, p);
      forall t | 0 <= t <= n - 1
        ensures DayBefore(ds[p], t) in ds
      {
        assert DayBefore(ds[p], t) == DayBefore(ds[k], t + 1);
      }
      DaysBeforeIndex(ds, p, n - 1);
    }
  }

  /** For a one-day milestone some active day is always returned. */
  lemma MilestoneDateOneDay(ts: seq<int>)
    requires |ts| > 0
    ensures MilestoneDate(ts, 1).Some?
  {
  }

  // ---------------------------------------------------------------------------
  // All streak periods.

  /** A streak period: its length in days and the last day (a day index, or its start in milliseconds). */
  datatype Period = Period(length: int, lastDay: int)

  /** Entries s..e form a maximal run of consecutive days. */
  predicate MaximalRun(ds: seq<int>, s: int, e: int)
  {
    0 <= s <= e < |ds|
    && (forall t :: s < t <= e ==> NextDay(ds, t))
    && (s == 0 || !NextDay(ds, s))
    && (e == |ds| - 1 || !NextDay(ds, e + 1))
  }

  /** The period a run s..e stands for. */
  function PeriodOf(ds: seq<int>, s: int, e: int): Period
    requires 0 <= s <= e < |ds|
  {
    Period(e - s + 1, ds[e])
  }

  /** The loop state of getAllStreakPeriods: `start` opens the run that reaches index i - 1. */
  predicate PeriodState(ds: seq<int>, start: nat, i: nat)
  {
    StrictlyIncreasing(ds) && start < i <= |ds|
    && (forall t :: start < t < i ==> NextDay(ds, t))
    && (start == 0 || !NextDay(ds, start))
  }

  /**
   * The loop of getAllStreakPeriods from index i on: at every break, and at the
   * end, the run just closed is reported when it spans more than one day.
   */
  function PeriodsScan(ds: seq<int>, start: nat, i: nat): (r: seq<Period>)
    requires PeriodState(ds, start, i)
    decreases |ds| - i
    ensures forall k :: 0 <= k < |r| ==> r[k].length > 1 && ds[i - 1] <= r[k].lastDay
    ensures forall a, b :: 0 <= a < b < |r| ==> r[a].lastDay < r[b].lastDay
  {
    if i == |ds| then
      if |ds| - start > 1 then [PeriodOf(ds, start, |ds| - 1)] else []
    else if !NextDay(ds, i) then
      var rest := PeriodsScan(ds, i, i + 1);
      assert ds[i - 1] < ds[i];
      if i - start > 1 then [PeriodOf(ds, start, i - 1)] + rest else rest
    else
      PeriodsScan(ds, start, i + 1)
  }

  /** Every reported period is a maximal run of more than one day that starts at or after `start`. */
  lemma {:induction false} PeriodsScanSound(ds: seq<int>, start: nat, i: nat, p: Period)
    requires PeriodState(ds, start, i) && p in PeriodsScan(ds, start, i)
    decreases |ds| - i
    ensures exists s, e :: start <= s < e && MaximalRun(ds, s, e) && p == PeriodOf(ds, s, e)
  {
    if i == |ds| {
      assert MaximalRun(ds, start, |ds| - 1);
    } else if !NextDay(ds, i) {
      var rest := PeriodsScan(ds, i, i + 1);
      if p in rest {
        PeriodsScanSound(ds, i, i + 1, p);
      } else {
        assert MaximalRun(ds, start, i - 1);
      }
    } else {
      PeriodsScanSound(ds, start, i + 1, p);
    }
  }

  /** Every maximal run of more than one day that starts at or after `start` is reported. */
  lemma {:induction false} PeriodsScanComplete(ds: seq<int>, start: nat, i: nat, s: int, e: int)
    requires PeriodState(ds, start, i) && start <= s < e && MaximalRun(ds, s, e)
    decreases |ds| - i
    ensures PeriodOf(ds, s, e) in PeriodsScan(ds, start, i)
  {
    if i == |ds| {
      PeriodsCompleteAtEnd(ds, start, i, s, e);
    } else if NextDay(ds, i) {
      PeriodsScanComplete(ds, start, i + 1, s, e);
    } else if s >= i {
      PeriodsScanComplete(ds, i, i + 1, s, e);
      var rest := PeriodsScan(ds, i, i + 1);
      assert PeriodsScan(ds, start, i) == (if i - start > 1 then [PeriodOf(ds, start, i - 1)] else []) + rest;
    } else {
      PeriodsCompleteAtBreak(ds, start, i, s, e);
    }
  }

  /** At the end of the list the open run is the one reported. */
  lemma PeriodsCompleteAtEnd(ds: seq<int>, start: nat, i: nat, s: int, e: int)
    requires PeriodState(ds, start, i) && i == |ds| && start <= s < e && MaximalRun(ds, s, e)
    ensures PeriodOf(ds, s, e) in PeriodsScan(ds, start, i)
  {
    RunStartsAtState(ds, start, i, s, e);
    RunEndsAtEnd(ds, start, i, s, e);
    assert PeriodsScan(ds, start, i) == [PeriodOf(ds, start, |ds| - 1)];
  }

  /** At a break the run closed there is the one reported first. */
  lemma PeriodsCompleteAtBreak(ds: seq<int>, start: nat, i: nat, s: int, e: int)
    requires PeriodState(ds, start, i) && i < |ds| && !NextDay(ds, i) && start <= s < e && s < i
    requires MaximalRun(ds, s, e)
    ensures PeriodOf(ds, s, e) in PeriodsScan(ds, start, i)
  {
    RunStartsAtState(ds, start, i, s, e);
    RunEndsAtBreak(ds, start, i, s, e);
    assert PeriodsScan(ds, start, i) == [PeriodOf(ds, start, i - 1)] + PeriodsScan(ds, i, i + 1);
  }

  /** A maximal run that starts before i begins where the current run does. */
  lemma RunStartsAtState(ds: seq<int>, start: nat, i: nat, s: int, e: int)
    requires PeriodState(ds, start, i) && start <= s < i && MaximalRun(ds, s, e)
    ensures s == start
  {
    assert start < s ==> NextDay(ds, s);
  }

  /** A maximal run from `start` at the end of the list ends at its last entry. */
  lemma RunEndsAtEnd(ds: seq<int>, start: nat, i: nat, s: int, e: int)
    requires PeriodState(ds, start, i) && i == |ds| && s == start && MaximalRun(ds, s, e)
    ensures e == |ds| - 1
  {
    assert e < |ds| - 1 ==> NextDay(ds, e + 1);
  }

  /** A maximal run from `start` that meets the break at i ends at i - 1. */
  lemma RunEndsAtBreak(ds: seq<int>, start: nat, i: nat, s: int, e: int)
    requires PeriodState(ds, start, i) && i < |ds| && !NextDay(ds, i) && s == start && MaximalRun(ds, s, e)
    ensures e == i - 1
  {
    assert e < i - 1 ==> NextDay(ds, e + 1);
  }

  /** The day-index periods of the sorted distinct days. */
  function DayPeriods(ds: seq<int>): seq<Period>
    requires StrictlyIncreasing(ds)
  {
    if |ds| == 0 then [] else PeriodsScan(ds, 0, 1)
  }

  function ToDayStart(p: Period): Period
  {
    Period(p.length, p.lastDay * DAY_MS)
  }

  /** getAllStreakPeriods: one (length, start of last day) per multi-day streak, chronologically. */
  function Periods(ts: seq<int>): (r: seq<Period>)
    ensures |ts| == 0 ==> r == []
  {
    Map(DayPeriods(ActiveDays(ts)), ToDayStart)
  }

  /** The reported periods are exactly the maximal runs of consecutive days longer than one day. */
  lemma DayPeriodsSpec(ds: seq<int>, p: Period)
    requires StrictlyIncreasing(ds)
    ensures p in DayPeriods(ds) <==> exists s, e :: 0 <= s < e && MaximalRun(ds, s, e) && p == PeriodOf(ds, s, e)
  {
    if |ds| > 0 {
      if p in DayPeriods(ds) {
        PeriodsScanSound(ds, 0, 1, p);
      }
      if exists s, e :: 0 <= s < e && MaximalRun(ds, s, e) && p == PeriodOf(ds, s, e) {
        var s, e :| 0 <= s < e && MaximalRun(ds, s, e) && p == PeriodOf(ds, s, e);
        PeriodsScanComplete(ds, 0, 1, s, e);
      }
    }
  }

  /** Periods come in chronological order: each ends strictly after the previous one. */
  lemma PeriodsChronological(ts: seq<int>)
    ensures forall a, b :: 0 <= a < b < |Periods(ts)| ==> Periods(ts)[a].lastDay < Periods(ts)[b].lastDay
  {
    var ds := ActiveDays(ts);
    var q := DayPeriods(ds);
    forall a, b | 0 <= a < b < |q|
      ensures q[a].lastDay * DAY_MS < q[b].lastDay * DAY_MS
    {
      assert q[a].lastDay < q[b].lastDay;
    }
  }

  /** Along a run of consecutive entries the days grow by exactly one per entry. */
  lemma {:induction false} RunSpan(ds: seq<int>, s: int, e: int)
    requires 0 <= s <= e < |ds| && forall t :: s < t <= e ==> NextDay(ds, t)
    ensures ds[e] - ds[s] == e - s
    decreases e - s
  {
    if s < e {
      RunSpan(ds, s, e - 1);
      assert NextDay(ds, e);
    }
  }

  /**
   * In day terms, entries s..e form a maximal run exactly when the len days
   * ending with day ds[e] are active while the day before them and the day
   * after ds[e] are not.
   */
  lemma MaximalRunDays(ds: seq<int>, s: int, e: int)
    requires StrictlyIncreasing(ds) && 0 <= s <= e < |ds|
    ensures MaximalRun(ds, s, e) <==>
              DaysRun(ds, ds[e], e - s + 1) && DayBefore(ds[e], e - s + 1) !in ds && ds[e] + 1 !in ds
  {
    var len := e - s + 1;
    RunEndsAtDays(ds, e, len);
    if MaximalRun(ds, s, e) {
      assert RunEndsAt(ds, e, len);
      RunSpan(ds, s, e);
      MaximalRunIsolated(ds, s, e);
    }
    if DaysRun(ds, ds[e], len) && DayBefore(ds[e], len) !in ds && ds[e] + 1 !in ds {
      assert RunEndsAt(ds, e, len);
      RunSpan(ds, s, e);
      assert s > 0 ==> ds[s - 1] < ds[s] && ds[s - 1] != DayBefore(ds[e], len);
      assert e < |ds| - 1 ==> ds[e + 1] != ds[e] + 1;
    }
  }

  /** The days just outside a maximal run are inactive. */
  lemma MaximalRunIsolated(ds: seq<int>, s: int, e: int)
    requires StrictlyIncreasing(ds) && MaximalRun(ds, s, e) && ds[e] - ds[s] == e - s
    ensures DayBefore(ds[e], e - s + 1) !in ds && ds[e] + 1 !in ds
  {
    forall p | 0 <= p < |ds|
      ensures ds[p] != ds[s] - 1 && ds[p] != ds[e] + 1
    {
      if ds[p] == ds[s] - 1 {
        PrevDayIndex(ds, s, p);
      }
      if ds[p] == ds[e] + 1 {
        PrevDayIndex(ds, p, e);
      }
    }
  }

  /**
   * The periods in day terms: (len, d) is reported exactly when len > 1, the
   * len days ending with day d are active, and neither the day before them nor
   * the day after d is. Periods then reports d as the start of that day.
   */
  lemma DayPeriodsDays(ds: seq<int>, len: int, d: int)
    requires StrictlyIncreasing(ds)
    ensures Period(len, d) in DayPeriods(ds) <==>
              len > 1 && DaysRun(ds, d, len) && DayBefore(d, len) !in ds && d + 1 !in ds
  {
    if Period(len, d) in DayPeriods(ds) {
      DayPeriodsDaysSound(ds, len, d);
    }
    if len > 1 && DaysRun(ds, d, len) && DayBefore(d, len) !in ds && d + 1 !in ds {
      DayPeriodsDaysComplete(ds, len, d);
    }
  }

  lemma DayPeriodsDaysSound(ds: seq<int>, len: int, d: int)
    requires StrictlyIncreasing(ds) && Period(len, d) in DayPeriods(ds)
    ensures len > 1 && DaysRun(ds, d, len) && DayBefore(d, len) !in ds && d + 1 !in ds
  {
    DayPeriodsSpec(ds, Period(len, d));
    var s, e :| 0 <= s < e && MaximalRun(ds, s, e) && Period(len, d) == PeriodOf(ds, s, e);
    MaximalRunDays(ds, s, e);
  }

  lemma DayPeriodsDaysComplete(ds: seq<int>, len: int, d: int)
    requires StrictlyIncreasing(ds)
    requires len > 1 && DaysRun(ds, d, len) && DayBefore(d, len) !in ds && d + 1 !in ds
    ensures Period(len, d) in DayPeriods(ds)
  {
    assert DayBefore(d, 0) in ds;
    var e :| 0 <= e < |ds| && ds[e] == d;
    DaysRunNeedsIndex(ds, e, len);
    var s := e - len + 1;
    MaximalRunDays(ds, s, e);
    assert MaximalRun(ds, s, e) && PeriodOf(ds, s, e) == Period(len, d);
    DayPeriodsSpec(ds, Period(len, d));
  }

  /** The len days ending with entry e occupy the len entries ending at e. */
  lemma DaysRunNeedsIndex(ds: seq<int>, e: int, len: int)
    requires StrictlyIncreasing(ds) && 0 <= e < |ds| && DaysRun(ds, ds[e], len)
    ensures e - len + 1 >= 0
  {
    DaysBeforeIndex(ds, e, len - 1);
  }
}
