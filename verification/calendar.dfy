/**
 * The calendar screen's data: activities joined with their pieces, the
 * selected day's list, the month summary grouped by day, the heat-map
 * colour of a day and the one-word description of its activity types.
 */
module Calendar {
  import opened Wrappers
  import opened Seqs
  import opened Entities
  import opened CalendarDates

  datatype ActivityWithPiece = ActivityWithPiece(activity: Activity, pieceOrTechnique: PieceOrTechnique)

  // ---------------------------------------------------------------------------
  // Joining activities with their pieces
  // ---------------------------------------------------------------------------

  /** `pieces.find { it.id == id }`: the first piece with that id. */
  function FindPiece(pieces: seq<PieceOrTechnique>, id: int): (r: Option<PieceOrTechnique>)
    ensures r.None? <==> forall i :: 0 <= i < |pieces| ==> pieces[i].id != id
    ensures r.Some? ==> r.value in pieces && r.value.id == id
  {
    if |pieces| == 0 then None
    else if pieces[0].id == id then Some(pieces[0])
    else FindPiece(pieces[1..], id)
  }

  /** The piece found is the first one carrying the id. */
  lemma {:induction false} FindPieceFirst(pieces: seq<PieceOrTechnique>, id: int, i: int)
    requires 0 <= i < |pieces| && pieces[i].id == id
    ensures FindPiece(pieces, id).Some?
    ensures (forall j :: 0 <= j < i ==> pieces[j].id != id) ==> FindPiece(pieces, id) == Some(pieces[i])
  {
    if i > 0 && pieces[0].id != id {
      FindPieceFirst(pieces[1..], id, i - 1);
    }
  }

  /** The activity's piece is still in the table. */
  function HasPiece(pieces: seq<PieceOrTechnique>): Activity -> bool
  {
    (a: Activity) => FindPiece(pieces, a.pieceOrTechniqueId).Some?
  }

  function ActivityOf(x: ActivityWithPiece): Activity
  {
    x.activity
  }

  /**
   * `mapNotNull`: each activity paired with the first piece of its id, those
   * whose piece no longer exists dropped, order kept.
   */
  function Joined(acts: seq<Activity>, pieces: seq<PieceOrTechnique>): (r: seq<ActivityWithPiece>)
    ensures Map(r, ActivityOf) == Filter(acts, HasPiece(pieces))
    ensures forall i :: 0 <= i < |r| ==> FindPiece(pieces, r[i].activity.pieceOrTechniqueId) == Some(r[i].pieceOrTechnique)
  {
    if |acts| == 0 then []
    else
      var rest := Joined(acts[1..], pieces);
      var found := FindPiece(pieces, acts[0].pieceOrTechniqueId);
      FilterCons(acts[0], acts[1..], HasPiece(pieces));
      assert acts == [acts[0]] + acts[1..];
      if found.Some? then
        var x := ActivityWithPiece(acts[0], found.value);
        MapCons(x, rest, ActivityOf);
        [x] + rest
      else rest
  }

  /** The activities whose timestamp lies in the window [w.0, w.1). */
  function InWindow(w: (int, int)): Activity -> bool
  {
    (a: Activity) => w.0 <= a.timestamp < w.1
  }

  /** selectedDateActivities: the selected day's activities that still have a piece. */
  function SelectedDateActivities(acts: seq<Activity>, pieces: seq<PieceOrTechnique>, selected: int)
    : (r: seq<ActivityWithPiece>)
    ensures forall a :: a in Map(r, ActivityOf) <==>
              a in acts && DayIndex(a.timestamp) == DayIndex(selected) && FindPiece(pieces, a.pieceOrTechniqueId).Some?
  {
    var day := Filter(acts, InWindow(DayWindow(selected)));
    forall a | a in acts
      ensures InWindow(DayWindow(selected))(a) <==> DayIndex(a.timestamp) == DayIndex(selected)
    {
      DayWindowMeansSameDay(selected, a.timestamp);
    }
    Joined(day, pieces)
  }

  // ---------------------------------------------------------------------------
  // Grouping by day
  // ---------------------------------------------------------------------------

  /** The key an activity is grouped under: the midnight of its day. */
  function DayKey(x: ActivityWithPiece): int
  {
    DayIndex(x.activity.timestamp) * DAY_MS
  }

  function OnDay(k: int): ActivityWithPiece -> bool
  {
    (x: ActivityWithPiece) => DayKey(x) == k
  }

  function Other(k: int): int -> bool
  {
    (d: int) => d != k
  }

  /** The day keys in order of first occurrence, as `groupBy`'s map iterates them. */
  function Days(items: seq<ActivityWithPiece>): (r: seq<int>)
    ensures NoDuplicates(r)
    ensures |r| <= |items|
    ensures forall d :: d in r <==> exists i :: 0 <= i < |items| && DayKey(items[i]) == d
  {
    if |items| == 0 then []
    else
      var k := DayKey(items[0]);
      var rest := Days(items[1..]);
      var others := Filter(rest, Other(k));
      var r := [k] + others;
      FilterNoDuplicates(rest, Other(k));
      forall d | d in r
        ensures exists i :: 0 <= i < |items| && DayKey(items[i]) == d
      {
        if d != k {
          var i :| 0 <= i < |items[1..]| && DayKey(items[1..][i]) == d;
          assert DayKey(items[i + 1]) == d;
        }
      }
      forall d | exists i :: 0 <= i < |items| && DayKey(items[i]) == d
        ensures d in r
      {
        var i :| 0 <= i < |items| && DayKey(items[i]) == d;
        if i > 0 && d != k {
          assert DayKey(items[1..][i - 1]) == d;
        }
      }
      r
  }

  /** The activities of one day, in their original order. */
  function Group(items: seq<ActivityWithPiece>, k: int): seq<ActivityWithPiece>
  {
    Filter(items, OnDay(k))
  }

  datatype DayGroup = DayGroup(day: int, activities: seq<ActivityWithPiece>)

  datatype MonthlyActivitySummary = MonthlyActivitySummary(
    activeDays: int,
    totalActivities: int,
    dailyActivities: seq<DayGroup>)

  function GroupFor(items: seq<ActivityWithPiece>): int -> DayGroup
  {
    (k: int) => DayGroup(k, Group(items, k))
  }

  /** The summary of a month's joined activities. */
  function Summarize(items: seq<ActivityWithPiece>): (s: MonthlyActivitySummary)
    ensures s.totalActivities == |items|
    ensures 0 <= s.activeDays <= s.totalActivities && s.activeDays == |s.dailyActivities|
    ensures forall i :: 0 <= i < |s.dailyActivities| ==>
              var g := s.dailyActivities[i];
              |g.activities| > 0 && forall j :: 0 <= j < |g.activities| ==> DayKey(g.activities[j]) == g.day
    ensures forall i, j :: 0 <= i < j < |s.dailyActivities| ==> s.dailyActivities[i].day != s.dailyActivities[j].day
  {
    var days := Days(items);
    GroupsNonEmpty(items);
    MonthlyActivitySummary(|days|, |items|, Map(days, GroupFor(items)))
  }

  lemma GroupsNonEmpty(items: seq<ActivityWithPiece>)
    ensures forall i :: 0 <= i < |Days(items)| ==> |Group(items, Days(items)[i])| > 0
  {
    forall i | 0 <= i < |Days(items)|
      ensures |Group(items, Days(items)[i])| > 0
    {
      var k := Days(items)[i];
      assert k in Days(items);
      FilterNonEmpty(items, OnDay(k));
    }
  }

  /** The total size of the groups of the listed days. */
  function GroupSizes(items: seq<ActivityWithPiece>, ds: seq<int>): int
  {
    if |ds| == 0 then 0 else |Group(items, ds[0])| + GroupSizes(items, ds[1..])
  }

  lemma {:induction false} GroupSizesCons(x: ActivityWithPiece, items: seq<ActivityWithPiece>, ds: seq<int>)
    requires forall i :: 0 <= i < |ds| ==> ds[i] != DayKey(x)
    ensures GroupSizes([x] + items, ds) == GroupSizes(items, ds)
  {
    if |ds| > 0 {
      FilterCons(x, items, OnDay(ds[0]));
      GroupSizesCons(x, items, ds[1..]);
    }
  }

  lemma {:induction false} GroupSizesSplit(items: seq<ActivityWithPiece>, ds: seq<int>, k: int)
    requires NoDuplicates(ds)
    ensures GroupSizes(items, ds) == (if k in ds then |Group(items, k)| else 0) + GroupSizes(items, Filter(ds, Other(k)))
  {
    if |ds| > 0 {
      assert NoDuplicates(ds[1..]);
      GroupSizesSplit(items, ds[1..], k);
      FilterCons(ds[0], ds[1..], Other(k));
      assert ds == [ds[0]] + ds[1..];
      var rest := Filter(ds[1..], Other(k));
      if ds[0] == k {
        assert k !in ds[1..];
        assert Filter(ds, Other(k)) == rest;
        assert GroupSizes(items, ds) == |Group(items, k)| + GroupSizes(items, ds[1..]);
      } else {
        assert ([ds[0]] + rest)[1..] == rest;
      }
    }
  }

  /** Every activity of the month lies in exactly one day's group, so the groups add up to the total. */
  lemma {:induction false} GroupSizesTotal(items: seq<ActivityWithPiece>)
    ensures GroupSizes(items, Days(items)) == |items|
  {
    if |items| > 0 {
      var x, r := items[0], items[1..];
      var k := DayKey(x);
      var d := Days(r);
      var f := Filter(d, Other(k));
      assert items == [x] + r;
      assert Days(items) == [k] + f;
      assert ([k] + f)[1..] == f;
      FilterCons(x, r, OnDay(k));
      assert |Group(items, k)| == 1 + |Group(r, k)|;
      GroupSizesCons(x, r, f);
      GroupSizesSplit(r, d, k);
      if k !in d {
        FilterNone(r, OnDay(k));
      }
      GroupSizesTotal(r);
    }
  }

  /**
   * monthlyActivitySummary: the month window's activities that still have
   * a piece, grouped by day. The total counts them, every group is a
   * non-empty set of same-day activities, the groups add up to the total
   * and there are no more active days than activities.
   */
  function MonthlySummary(acts: seq<Activity>, pieces: seq<PieceOrTechnique>, month: int): (s: MonthlyActivitySummary)
    ensures s.totalActivities == |Filter(Filter(acts, InWindow(MonthWindow(month))), HasPiece(pieces))|
    ensures 0 <= s.activeDays <= s.totalActivities && s.activeDays == |s.dailyActivities|
    ensures forall i :: 0 <= i < |s.dailyActivities| ==>
              var g := s.dailyActivities[i];
              |g.activities| > 0 && forall j :: 0 <= j < |g.activities| ==> DayKey(g.activities[j]) == g.day
    ensures forall i, j :: 0 <= i < j < |s.dailyActivities| ==> s.dailyActivities[i].day != s.dailyActivities[j].day
  {
    Summarize(Joined(Filter(acts, InWindow(MonthWindow(month))), pieces))
  }

  /** The month summary's groups add up to its total. */
  lemma MonthlySummaryTotals(acts: seq<Activity>, pieces: seq<PieceOrTechnique>, month: int)
    ensures var s := MonthlySummary(acts, pieces, month);
            Sum(Map(s.dailyActivities, GroupSize)) == s.totalActivities
  {
    var items := Joined(Filter(acts, InWindow(MonthWindow(month))), pieces);
    GroupSizesTotal(items);
    SizesAgree(items, Days(items));
  }

  function GroupSize(g: DayGroup): int
  {
    |g.activities|
  }

  lemma {:induction false} SizesAgree(items: seq<ActivityWithPiece>, ds: seq<int>)
    ensures Sum(Map(Map(ds, GroupFor(items)), GroupSize)) == GroupSizes(items, ds)
  {
    if |ds| > 0 {
      SizesAgree(items, ds[1..]);
      assert Map(ds, GroupFor(items))[1..] == Map(ds[1..], GroupFor(items));
      assert Map(Map(ds, GroupFor(items)), GroupSize)[1..] == Map(Map(ds[1..], GroupFor(items)), GroupSize);
    }
  }

  // ---------------------------------------------------------------------------
  // Heat map and description
  // ---------------------------------------------------------------------------

  datatype Intensity = Light | Medium | Dark

  datatype CalendarColor =
    | NoActivity
    | PracticeColor(practiceIntensity: Intensity)
    | PerformanceColor(performanceIntensity: Intensity)

  function Rank(i: Intensity): int
  {
    match i
    case Light => 0
    case Medium => 1
    case Dark => 2
  }

  /** Dark from 11 activities, medium from 5, light below. */
  function IntensityFor(count: int): (i: Intensity)
  {
    if count >= 11 then Dark else if count >= 5 then Medium else Light
  }

  /** More activities never give a lighter shade; the thresholds are 5 and 11. */
  lemma IntensityMonotone(a: int, b: int)
    requires a <= b
    ensures Rank(IntensityFor(a)) <= Rank(IntensityFor(b))
    ensures IntensityFor(a) == Dark <==> a >= 11
    ensures IntensityFor(a) == Light <==> a < 5
  {
  }

  predicate IsPerformanceItem(x: ActivityWithPiece)
  {
    x.activity.activityType == PERFORMANCE
  }

  predicate IsPracticeItem(x: ActivityWithPiece)
  {
    x.activity.activityType == PRACTICE
  }

  predicate HasPerformance(items: seq<ActivityWithPiece>)
  {
    exists i :: 0 <= i < |items| && IsPerformanceItem(items[i])
  }

  predicate HasPractice(items: seq<ActivityWithPiece>)
  {
    exists i :: 0 <= i < |items| && IsPracticeItem(items[i])
  }

  /**
   * getCalendarColorForActivities: no colour for an empty day; free users
   * see practice-light for any activity; Pro users see the performance
   * shades when the day has a performance and the practice shades otherwise,
   * darker with more activities.
   */
  function ColorFor(items: seq<ActivityWithPiece>, isPro: bool): (c: CalendarColor)
    ensures c.NoActivity? <==> |items| == 0
    ensures |items| > 0 && !isPro ==> c == PracticeColor(Light)
    ensures |items| > 0 && isPro ==> (c.PerformanceColor? <==> HasPerformance(items))
    ensures |items| > 0 && isPro && c.PerformanceColor? ==> c.performanceIntensity == IntensityFor(|items|)
    ensures |items| > 0 && isPro && c.PracticeColor? ==> c.practiceIntensity == IntensityFor(|items|)
  {
    if |items| == 0 then NoActivity
    else if !isPro then PracticeColor(Light)
    else if HasPerformance(items) then PerformanceColor(IntensityFor(|items|))
    else PracticeColor(IntensityFor(|items|))
  }

  /** For a Pro user, a busier day of the same kind is never shown lighter. */
  lemma ColorMonotone(a: seq<ActivityWithPiece>, b: seq<ActivityWithPiece>)
    requires 0 < |a| <= |b| && HasPerformance(a) == HasPerformance(b)
    ensures ColorFor(a, true).PerformanceColor? == ColorFor(b, true).PerformanceColor?
    ensures ColorFor(a, true).PerformanceColor? ==>
              Rank(ColorFor(a, true).performanceIntensity) <= Rank(ColorFor(b, true).performanceIntensity)
    ensures ColorFor(a, true).PracticeColor? ==>
              Rank(ColorFor(a, true).practiceIntensity) <= Rank(ColorFor(b, true).practiceIntensity)
  {
    IntensityMonotone(|a|, |b|);
  }

  /** getActivityTypeDescription. */
  function TypeDescription(items: seq<ActivityWithPiece>): (s: string)
    ensures s == "Mixed" <==> HasPerformance(items) && HasPractice(items)
    ensures s == "Performance" <==> HasPerformance(items) && !HasPractice(items)
    ensures s == "Practice" <==> !HasPerformance(items)
  {
    var practiceCount := |Filter(items, IsPracticeItem)|;
    FilterNonEmpty(items, IsPracticeItem);
    if HasPerformance(items) && practiceCount > 0 then "Mixed"
    else if HasPerformance(items) then "Performance"
    else "Practice"
  }
}
