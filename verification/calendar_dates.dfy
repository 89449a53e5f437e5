/**
 * Day and month arithmetic behind the calendar screen. Instants are epoch
 * milliseconds read in a zone without offset or daylight saving, so a day
 * is exactly DAY_MS long and starts at a multiple of DAY_MS. Months follow
 * the proleptic Gregorian calendar (java.time's YearMonth) and are numbered
 * consecutively from January 1970 (month index 0).
 */
module CalendarDates {
  import opened Wrappers
  import opened Entities

  const EPOCH_YEAR: int := 1970

  datatype YearMonth = YearMonth(year: int, month: int)

  predicate ValidYearMonth(ym: YearMonth)
  {
    1 <= ym.month <= 12
  }

  /** A calendar date (java.time.LocalDate). */
  datatype LocalDate = LocalDate(ym: YearMonth, day: int)

  predicate IsLeap(year: int)
  {
    year % 4 == 0 && (year % 100 != 0 || year % 400 == 0)
  }

  /** YearMonth.lengthOfMonth. */
  function LengthOfMonth(ym: YearMonth): (n: int)
    requires ValidYearMonth(ym)
    ensures 28 <= n <= 31
    ensures n == 31 <==> ym.month in {1, 3, 5, 7, 8, 10, 12}
    ensures n == 30 <==> ym.month in {4, 6, 9, 11}
    ensures n == 29 <==> ym.month == 2 && IsLeap(ym.year)
  {
    if ym.month == 2 then (if IsLeap(ym.year) then 29 else 28)
    else if ym.month in {4, 6, 9, 11} then 30
    else 31
  }

  predicate ValidDate(d: LocalDate)
  {
    ValidYearMonth(d.ym) && 1 <= d.day <= LengthOfMonth(d.ym)
  }

  /** The consecutive number of a month, January 1970 being 0. */
  function MonthIndex(ym: YearMonth): int
  {
    (ym.year - EPOCH_YEAR) * 12 + ym.month - 1
  }

  /** The month with a given consecutive number; the inverse of MonthIndex. */
  function YearMonthOf(m: int): (ym: YearMonth)
    ensures ValidYearMonth(ym)
    ensures MonthIndex(ym) == m
  {
    YearMonth(EPOCH_YEAR + m / 12, m % 12 + 1)
  }

  lemma YearMonthOfIndex(ym: YearMonth)
    requires ValidYearMonth(ym)
    ensures YearMonthOf(MonthIndex(ym)) == ym
  {
    var m := MonthIndex(ym);
    var q := ym.year - EPOCH_YEAR;
    assert m == q * 12 + (ym.month - 1);
    assert m / 12 == q && m % 12 == ym.month - 1;
  }

  function MonthLength(m: int): (n: int)
    ensures 28 <= n <= 31
  {
    LengthOfMonth(YearMonthOf(m))
  }

  /** The day index (days since 1 January 1970) of the first day of month `m`. */
  function FirstDay(m: int): int
    decreases if m >= 0 then m else -m
  {
    if m == 0 then 0
    else if m > 0 then FirstDay(m - 1) + MonthLength(m - 1)
    else FirstDay(m + 1) - MonthLength(m)
  }

  /** Consecutive months abut: each starts where the previous one ends. */
  lemma FirstDayStep(m: int)
    ensures FirstDay(m + 1) == FirstDay(m) + MonthLength(m)
  {
  }

  /** Later months start strictly later. */
  lemma {:induction false} FirstDayMonotone(a: int, b: int)
    requires a < b
    ensures FirstDay(a) < FirstDay(b)
    decreases b - a
  {
    FirstDayStep(a);
    if a + 1 < b {
      FirstDayMonotone(a + 1, b);
    }
  }

  /** Month `m` covers the day indices [FirstDay(m), FirstDay(m + 1)). */
  predicate InMonth(day: int, m: int)
  {
    FirstDay(m) <= day < FirstDay(m + 1)
  }

  /** A day lies in one month only. */
  lemma InMonthUnique(day: int, a: int, b: int)
    requires InMonth(day, a) && InMonth(day, b)
    ensures a == b
  {
    if a < b {
      FirstDayMonotone(a + 1, b + 1);
      if a + 1 < b {
        FirstDayMonotone(a + 1, b);
      }
    } else if b < a {
      if b + 1 < a {
        FirstDayMonotone(b + 1, a);
      }
    }
  }

  function SearchUp(day: int, m: int): (r: int)
    requires FirstDay(m) <= day
    ensures InMonth(day, r)
    decreases day - FirstDay(m)
  {
    FirstDayStep(m);
    if day < FirstDay(m + 1) then m else SearchUp(day, m + 1)
  }

  function SearchDown(day: int, m: int): (r: int)
    requires day < FirstDay(m + 1)
    ensures InMonth(day, r)
    decreases FirstDay(m + 1) - day
  {
    FirstDayStep(m);
    if FirstDay(m) <= day then m else SearchDown(day, m - 1)
  }

  /** The month index of the month containing day index `day`. */
  function MonthAt(day: int): (m: int)
    ensures InMonth(day, m)
  {
    if 0 <= day then SearchUp(day, 0) else SearchDown(day, -1)
  }

  /** The day index of an instant: whole days since the epoch, rounding down. */
  function DayIndex(t: int): int
  {
    t / DAY_MS
  }

  /** The day index of a date. */
  function DayOf(d: LocalDate): int
  {
    FirstDay(MonthIndex(d.ym)) + d.day - 1
  }

  /** LocalDate.atStartOfDay().toEpochMilli(). */
  function StartOfDayMillis(d: LocalDate): (t: int)
    ensures t % DAY_MS == 0 && DayIndex(t) == DayOf(d)
  {
    DayOf(d) * DAY_MS
  }

  /** The date an instant falls on. */
  function DateAt(t: int): (d: LocalDate)
    ensures ValidDate(d)
    ensures DayOf(d) == DayIndex(t)
  {
    var m := MonthAt(DayIndex(t));
    var ym := YearMonthOf(m);
    FirstDayStep(m);
    LocalDate(ym, DayIndex(t) - FirstDay(m) + 1)
  }

  /** A valid date is the date of its own midnight. */
  lemma DateAtStartOfDay(d: LocalDate)
    requires ValidDate(d)
    ensures DateAt(StartOfDayMillis(d)) == d
  {
    var m := MonthIndex(d.ym);
    YearMonthOfIndex(d.ym);
    FirstDayStep(m);
    assert InMonth(DayOf(d), m);
    InMonthUnique(DayOf(d), m, MonthAt(DayOf(d)));
  }

  /**
   * The selected-day window: from the instant's midnight to the next
   * midnight, start included and end excluded.
   */
  function DayWindow(t: int): (w: (int, int))
    ensures w.0 <= t < w.1 && w.1 == w.0 + DAY_MS
    ensures w.0 % DAY_MS == 0
  {
    (DayIndex(t) * DAY_MS, (DayIndex(t) + 1) * DAY_MS)
  }

  /** The midnight of day `x` is not after `u` exactly when `u` falls on day `x` or later. */
  lemma MidnightBound(x: int, u: int)
    ensures x * DAY_MS <= u <==> x <= DayIndex(u)
  {
    var k := DayIndex(u);
    assert k * DAY_MS <= u < (k + 1) * DAY_MS;
    if x <= k {
      assert x * DAY_MS <= k * DAY_MS;
    } else {
      assert (k + 1) * DAY_MS <= x * DAY_MS;
    }
  }

  /** Instants between the midnights of days `a` and `b` are those falling on days a to b - 1. */
  lemma BetweenMidnights(a: int, b: int, u: int)
    ensures a * DAY_MS <= u < b * DAY_MS <==> a <= DayIndex(u) < b
  {
    MidnightBound(a, u);
    MidnightBound(b, u);
  }

  /** An instant lies in another's day window exactly when both fall on the same day. */
  lemma DayWindowMeansSameDay(t: int, u: int)
    ensures DayWindow(t).0 <= u < DayWindow(t).1 <==> DayIndex(u) == DayIndex(t)
  {
    BetweenMidnights(DayIndex(t), DayIndex(t) + 1, u);
  }

  /**
   * The month window: from midnight on day 1 of the instant's month to
   * midnight on day 1 of the next month, end excluded.
   */
  function MonthWindow(t: int): (w: (int, int))
    ensures w.0 <= t < w.1
    ensures w.0 == StartOfDayMillis(LocalDate(YearMonthOf(MonthAt(DayIndex(t))), 1))
    ensures w.1 == StartOfDayMillis(LocalDate(YearMonthOf(MonthAt(DayIndex(t)) + 1), 1))
  {
    var m := MonthAt(DayIndex(t));
    (FirstDay(m) * DAY_MS, FirstDay(m + 1) * DAY_MS)
  }

  /** Two instants share a month window exactly when they fall in the same month. */
  lemma MonthWindowMeansSameMonth(t: int, u: int)
    ensures MonthWindow(t) == MonthWindow(u) <==> MonthAt(DayIndex(t)) == MonthAt(DayIndex(u))
  {
    var a, b := MonthAt(DayIndex(t)), MonthAt(DayIndex(u));
    if MonthWindow(t) == MonthWindow(u) {
      assert FirstDay(a) == FirstDay(b);
      if a < b {
        FirstDayMonotone(a, b);
      } else if b < a {
        FirstDayMonotone(b, a);
      }
    }
  }

  /** An instant lies in another's month window exactly when both fall in the same month. */
  lemma MonthWindowContains(t: int, u: int)
    ensures MonthWindow(t).0 <= u < MonthWindow(t).1 <==> MonthAt(DayIndex(u)) == MonthAt(DayIndex(t))
  {
    var m := MonthAt(DayIndex(t));
    BetweenMidnights(FirstDay(m), FirstDay(m + 1), u);
    if InMonth(DayIndex(u), m) {
      InMonthUnique(DayIndex(u), m, MonthAt(DayIndex(u)));
    }
  }

  /**
   * The date selected after switching to `newMonth`: the same day of the
   * month when the new month has it, its last day otherwise, and day 1 when
   * nothing was selected.
   */
  function DayToSelect(selected: Option<LocalDate>, newMonth: YearMonth): (r: LocalDate)
    requires ValidYearMonth(newMonth)
    requires selected.Some? ==> ValidDate(selected.value)
    ensures ValidDate(r) && r.ym == newMonth
    ensures selected.None? ==> r.day == 1
    ensures selected.Some? && selected.value.day <= LengthOfMonth(newMonth) ==> r.day == selected.value.day
    ensures selected.Some? && selected.value.day > LengthOfMonth(newMonth) ==> r.day == LengthOfMonth(newMonth)
  {
    match selected
    case None => LocalDate(newMonth, 1)
    case Some(d) =>
      if d.day <= LengthOfMonth(newMonth) then LocalDate(newMonth, d.day)
      else LocalDate(newMonth, LengthOfMonth(newMonth))
  }

  /**
   * The chosen day is the latest day of the new month not after the old
   * day of the month, and its midnight lies in the new month's window.
   */
  lemma DayToSelectClosest(selected: LocalDate, newMonth: YearMonth)
    requires ValidYearMonth(newMonth) && ValidDate(selected)
    ensures var r := DayToSelect(Some(selected), newMonth);
            r.day <= selected.day
            && (r.day < selected.day ==> r.day == LengthOfMonth(newMonth))
            && MonthAt(DayIndex(StartOfDayMillis(r))) == MonthIndex(newMonth)
  {
    var r := DayToSelect(Some(selected), newMonth);
    DateAtStartOfDay(r);
    YearMonthOfIndex(newMonth);
  }

  /** Switching away and back returns to the same date when both months have its day. */
  lemma DayToSelectRoundTrip(d: LocalDate, other: YearMonth)
    requires ValidDate(d) && ValidYearMonth(other) && d.day <= LengthOfMonth(other)
    ensures DayToSelect(Some(DayToSelect(Some(d), other)), d.ym) == d
  {
  }

  /** From 31 January 2024 the next month shows 29 February; in 2023, 28 February. */
  lemma ClampToFebruary()
    ensures DayToSelect(Some(LocalDate(YearMonth(2024, 1), 31)), YearMonth(2024, 2)) == LocalDate(YearMonth(2024, 2), 29)
    ensures DayToSelect(Some(LocalDate(YearMonth(2023, 1), 31)), YearMonth(2023, 2)) == LocalDate(YearMonth(2023, 2), 28)
  {
  }

  /** The selection state: the selected instant and the loaded month window. */
  datatype CalendarState = CalendarState(selectedDate: int, currentMonth: (int, int))

  /** The view model's state is consistent when the loaded window is the selected instant's month. */
  predicate Consistent(s: CalendarState)
  {
    s.currentMonth == MonthWindow(s.selectedDate)
  }

  /** The state a calendar opens in at `now`. */
  function InitialState(now: int): (s: CalendarState)
    ensures Consistent(s) && s.selectedDate == now
  {
    CalendarState(now, MonthWindow(now))
  }

  /** selectDate: always select the instant; replace the month window only when it differs. */
  function SelectDate(s: CalendarState, t: int): (r: CalendarState)
    ensures r.selectedDate == t
    ensures Consistent(r)
  {
    var w := MonthWindow(t);
    if w != s.currentMonth then CalendarState(t, w) else s.(selectedDate := t)
  }

  /** Selecting a day of the loaded month keeps the window; any other month replaces it. */
  lemma SelectDateKeepsMonth(s: CalendarState, t: int)
    requires Consistent(s)
    ensures SelectDate(s, t).currentMonth == s.currentMonth
            <==> MonthAt(DayIndex(t)) == MonthAt(DayIndex(s.selectedDate))
  {
    MonthWindowMeansSameMonth(t, s.selectedDate);
  }
}
