/**
 * Relative-time texts for timestamps. The clock is the parameter `now` and the
 * absolute "MMM d, yyyy" rendering, a platform formatter, is the parameter
 * `absolute`. A missing timestamp and the timestamp 0 both mean "never".
 */
module DateFormatter {
  import opened Wrappers
  import opened Decimal
  import opened Entities

  /** A timestamp that is absent or 0 counts as never. */
  predicate IsNever(timestamp: Option<int>)
  {
    timestamp.None? || timestamp.value == 0
  }

  /** The buckets of `formatDate`. */
  datatype DateBucket =
    | NeverDate
    | JustNow
    | MinutesAgo(minutes: int)
    | HoursAgo(hours: int)
    | DaysAgo(days: int)
    | Absolute(timestamp: int)

  function Bucket(timestamp: Option<int>, now: int): (b: DateBucket)
  {
    if IsNever(timestamp) then NeverDate
    else
      var diff := now - timestamp.value;
      if diff < MINUTE_MS then JustNow
      else if diff < HOUR_MS then MinutesAgo(diff / MINUTE_MS)
      else if diff < DAY_MS then HoursAgo(diff / HOUR_MS)
      else if diff < 7 * DAY_MS then DaysAgo(diff / DAY_MS)
      else Absolute(timestamp.value)
  }

  function RenderBucket(b: DateBucket, absolute: int -> string): string
  {
    match b
    case NeverDate => "Never"
    case JustNow => "Just now"
    case MinutesAgo(m) => IntToString(m) + "m ago"
    case HoursAgo(h) => IntToString(h) + "h ago"
    case DaysAgo(d) => IntToString(d) + "d ago"
    case Absolute(t) => absolute(t)
  }

  /** formatDate. */
  function FormatDate(timestamp: Option<int>, now: int, absolute: int -> string): (s: string)
    ensures IsNever(timestamp) ==> s == "Never"
  {
    RenderBucket(Bucket(timestamp, now), absolute)
  }

  /** formatDateOnly and formatDateTime: "Never", or the platform rendering. */
  function FormatAbsolute(timestamp: Option<int>, absolute: int -> string): (s: string)
    ensures IsNever(timestamp) ==> s == "Never"
    ensures !IsNever(timestamp) ==> s == absolute(timestamp.value)
  {
    if IsNever(timestamp) then "Never" else absolute(timestamp.value)
  }

  /** formatDateWithFallback: the fallback for never, formatDate otherwise. */
  function FormatDateWithFallback(timestamp: Option<int>, now: int, absolute: int -> string, fallback: string)
    : (s: string)
    ensures IsNever(timestamp) ==> s == fallback
    ensures !IsNever(timestamp) ==> s == FormatDate(timestamp, now, absolute)
  {
    if IsNever(timestamp) then fallback else FormatDate(timestamp, now, absolute)
  }

  const DEFAULT_FALLBACK: string := "N/A"

  /**
   * Each relative bucket holds the truncated count of whole units elapsed, and
   * the buckets split the elapsed time at one minute, one hour, one day and
   * seven days; a timestamp in the future is "just now".
   */
  lemma BucketSpec(timestamp: Option<int>, now: int)
    ensures var b := Bucket(timestamp, now);
            (b.NeverDate? <==> IsNever(timestamp))
            && (!IsNever(timestamp) ==>
                  var diff := now - timestamp.value;
                  (b.JustNow? <==> diff < MINUTE_MS)
                  && (b.MinutesAgo? ==> 1 <= b.minutes < 60
                                        && b.minutes * MINUTE_MS <= diff < (b.minutes + 1) * MINUTE_MS)
                  && (b.HoursAgo? ==> 1 <= b.hours < 24
                                      && b.hours * HOUR_MS <= diff < (b.hours + 1) * HOUR_MS)
                  && (b.DaysAgo? ==> 1 <= b.days < 7
                                     && b.days * DAY_MS <= diff < (b.days + 1) * DAY_MS)
                  && (b.Absolute? <==> diff >= 7 * DAY_MS))
  {
  }

  /** The bucket kinds in order of elapsed time. */
  function BucketRank(b: DateBucket): nat
  {
    match b
    case NeverDate => 0
    case JustNow => 1
    case MinutesAgo(_) => 2
    case HoursAgo(_) => 3
    case DaysAgo(_) => 4
    case Absolute(_) => 5
  }

  /** An older timestamp never lands in an earlier bucket kind. */
  lemma BucketMonotone(t1: int, t2: int, now: int)
    requires t1 != 0 && t2 != 0 && t1 <= t2
    ensures BucketRank(Bucket(Some(t2), now)) <= BucketRank(Bucket(Some(t1), now))
  {
  }

  /** The buckets of `formatTimeSince`. */
  datatype SinceBucket =
    | NeverSince
    | UnderMinute
    | Minutes(minutes: int)
    | Hours(hours: int)
    | Days(days: int)
    | Months(months: int)
    | Years(years: int)

  function Since(timestamp: Option<int>, now: int): (b: SinceBucket)
  {
    if IsNever(timestamp) then NeverSince
    else
      var diff := now - timestamp.value;
      if diff < MINUTE_MS then UnderMinute
      else if diff < HOUR_MS then Minutes(diff / MINUTE_MS)
      else if diff < DAY_MS then Hours(diff / HOUR_MS)
      else if diff < 30 * DAY_MS then Days(diff / DAY_MS)
      else if diff < 365 * DAY_MS then Months(diff / DAY_MS / 30)
      else Years(diff / DAY_MS / 365)
  }

  /** "<n> <unit> ago", the unit plural unless n is 1. */
  function CountText(n: int, unit: string): string
  {
    IntToString(n) + " " + unit + (if n == 1 then "" else "s") + " ago"
  }

  function RenderSince(b: SinceBucket): string
  {
    match b
    case NeverSince => "Never"
    case UnderMinute => "Less than a minute ago"
    case Minutes(n) => CountText(n, "minute")
    case Hours(n) => CountText(n, "hour")
    case Days(n) => CountText(n, "day")
    case Months(n) => CountText(n, "month")
    case Years(n) => CountText(n, "year")
  }

  /** formatTimeSince. */
  function FormatTimeSince(timestamp: Option<int>, now: int): (s: string)
    ensures IsNever(timestamp) ==> s == "Never"
  {
    RenderSince(Since(timestamp, now))
  }

  /**
   * Each bucket of `formatTimeSince` holds the truncated count of its unit,
   * months counting 30 days and years 365, and the buckets split the elapsed
   * time at one minute, hour, day, 30 days and 365 days.
   */
  lemma SinceSpec(timestamp: Option<int>, now: int)
    ensures var b := Since(timestamp, now);
            (b.NeverSince? <==> IsNever(timestamp))
            && (!IsNever(timestamp) ==>
                  var diff := now - timestamp.value;
                  (b.UnderMinute? <==> diff < MINUTE_MS)
                  && (b.Minutes? ==> 1 <= b.minutes < 60 && b.minutes == diff / MINUTE_MS)
                  && (b.Hours? ==> 1 <= b.hours < 24 && b.hours == diff / HOUR_MS)
                  && (b.Days? ==> 1 <= b.days < 30 && b.days == diff / DAY_MS)
                  && (b.Months? ==> 1 <= b.months <= 12 && b.months == (diff / DAY_MS) / 30)
                  && (b.Years? <==> diff >= 365 * DAY_MS)
                  && (b.Years? ==> b.years >= 1 && b.years == (diff / DAY_MS) / 365))
  {
  }

  /** The unit is written in the plural exactly when the count is not 1. */
  lemma CountTextPlural(n: int, unit: string)
    requires |unit| > 0 && unit[|unit| - 1] != 's'
    ensures var s := CountText(n, unit);
            var tail := s[..|s| - |" ago"|];
            (tail[|tail| - 1] == 's') <==> n != 1
  {
    var s := CountText(n, unit);
    var word := unit + (if n == 1 then "" else "s");
    assert s == IntToString(n) + " " + word + " ago";
    assert s[..|s| - |" ago"|] == IntToString(n) + " " + word;
  }
}
