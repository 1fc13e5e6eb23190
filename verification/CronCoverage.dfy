/** Which schedules the 366-day search can never miss: an exact classification, by the calendar's
    leap years and weekday cycle. */
module CronCoverage {
  import opened Text
  import opened Calendar
  import opened CronSchedule

  /** Length of month `m` in a common year. */
  function ShortestMonth(m: int): int {
    DaysInMonth(1970, m)
  }

  /** The caller's test: the day of month is free, or the weekday is free and the date (if both its
      parts are fixed) exists in every year. */
  predicate DateRecurs(s: Schedule) {
    || s.dayOfMonth < 0
    || (s.dayOfWeek < 0 && (s.month < 0 || s.dayOfMonth <= ShortestMonth(s.month)))
  }

  // ---- Recurring dates come round within 366 days ----------------------------------------------

  lemma YearlyGap(y: int, m: int, d: int)
    requires 1 <= m <= 12
    ensures 365 <= DayNumber(Date(y + 1, m, d)) - DayNumber(Date(y, m, d)) <= 366
  {
    YearStep(y);
  }

  /** A date of every year falls, in some year `y`, on one of any 366 consecutive days. */
  lemma DateComesRound(start: int, m: int, d: int) returns (y: int)
    requires 1 <= m <= 12 && 1 <= d <= ShortestMonth(m)
    ensures start <= DayNumber(Date(y, m, d)) < start + 366
    ensures ValidDate(Date(y, m, d))
  {
    hide YearStart, DaysBeforeMonth, DateOf;
    y := DateOf(start).year;
    DateWithinYear(DateOf(start));
    YearStep(y);
    DateWithinYear(Date(y, m, d));
    if DayNumber(Date(y, m, d)) < start {
      YearlyGap(y, m, d);
      y := y + 1;
      DateWithinYear(Date(y, m, d));
    }
  }

  lemma WeekdayWithinSeven(start: int, w: int) returns (n: int)
    requires 0 <= w < 7
    ensures start <= n < start + 7 && Weekday(n) == w
  {
    n := start + (w - Weekday(start)) % 7;
  }

  /** Some day among the seven from the `k`-th after the first of a month has weekday `w`. */
  lemma WeekdayInMonth(y: int, m: int, k: int, w: int) returns (n: int)
    requires 1 <= m <= 12 && 0 <= k <= 21 && 0 <= w < 7
    ensures DayNumber(Date(y, m, 1)) + k <= n < DayNumber(Date(y, m, 1)) + k + 7
    ensures DateOf(n).month == m && Weekday(n) == w
  {
    n := WeekdayWithinSeven(DayNumber(Date(y, m, 1)) + k, w);
    var d := Date(y, m, n - DayNumber(Date(y, m, 1)) + 1);
    assert DayNumber(d) == n;
    DateOfDayNumber(d);
  }

  /** Every weekday of a fixed month falls on one of any 366 consecutive days. */
  lemma MonthDayComesRound(start: int, m: int, w: int) returns (n: int)
    requires 1 <= m <= 12 && 0 <= w < 7
    ensures start <= n < start + 366
    ensures DateOf(n).month == m && Weekday(n) == w
  {
    hide YearStart, DaysBeforeMonth, DateOf;
    var y := DateComesRound(start, m, 1);
    if DayNumber(Date(y, m, 1)) + 7 <= start + 366 {
      n := WeekdayInMonth(y, m, 0, w);
    } else {
      YearlyGap(y - 1, m, 1);
      n := WeekdayInMonth(y - 1, m, start - DayNumber(Date(y - 1, m, 1)), w);
    }
  }

  lemma RecurringDay(s: Schedule, start: int) returns (n: int)
    requires WellFormed(s) && DateRecurs(s)
    ensures start <= n < start + 366 && DayMatches(s, n)
  {
    if s.dayOfMonth >= 0 {
      var m := if s.month < 0 then 1 else s.month;
      var y := DateComesRound(start, m, s.dayOfMonth);
      DateOfDayNumber(Date(y, m, s.dayOfMonth));
      n := DayNumber(Date(y, m, s.dayOfMonth));
    } else {
      var w := if s.dayOfWeek < 0 then 0 else s.dayOfWeek;
      if s.month < 0 {
        n := WeekdayWithinSeven(start, w);
      } else {
        n := MonthDayComesRound(start, s.month, w);
      }
    }
  }

  function TargetMinute(s: Schedule): (minute: int)
    requires WellFormed(s)
    ensures 0 <= minute < 60 && MinuteMatches(s, minute)
  {
    if s.minuteStep > 0 || s.minute < 0 then 0 else s.minute
  }

  lemma MinuteOfDay(first: int, day: int, hour: int, minute: int)
    requires 0 <= hour < 24 && 0 <= minute < 60
    requires 0 <= day - (first - (hour * 60 + minute) + 1439) / 1440 < 366
    ensures var m := day * 1440 + (hour * 60 + minute);
            && first <= m <= first + WINDOW_MINUTES
            && m / 1440 == day && m % 60 == minute && m / 60 % 24 == hour
  {
    var m := day * 1440 + (hour * 60 + minute);
    assert m / 60 == day * 24 + hour;
  }

  /** A recurring schedule matches some minute of every window, whatever the hour and minute. */
  lemma RecurringMinute(s: Schedule, first: int) returns (m: int)
    requires WellFormed(s) && DateRecurs(s)
    ensures first <= m <= first + WINDOW_MINUTES && MatchesMinute(s, m)
  {
    hide MatchesMinute, MinuteMatches, DayMatches, DateRecurs, TargetMinute;
    var minute := TargetMinute(s);
    var hour := if s.hour < 0 then 0 else s.hour;
    var day := RecurringDay(s, (first - (hour * 60 + minute) + 1439) / 1440);
    m := day * 1440 + (hour * 60 + minute);
    MinuteOfDay(first, day, hour, minute);
    MatchesFromParts(s, m, minute);
  }

  lemma MatchesFromParts(s: Schedule, m: int, minute: int)
    requires m % 60 == minute && MinuteMatches(s, minute)
    requires FieldMatches(s.hour, m / 60 % 24) && DayMatches(s, m / 1440)
    ensures MatchesMinute(s, m)
  {
    hide MinuteMatches, DayMatches;
  }

  lemma BoundariesOfMinutes(first: int, m: int)
    requires first <= m <= first + WINDOW_MINUTES
    ensures IsBoundary(m * MINUTE_NS)
    ensures first * MINUTE_NS <= m * MINUTE_NS <= first * MINUTE_NS + WINDOW_NS
  {
  }

  lemma RecurringScheduleFires(s: Schedule, after: int)
    requires WellFormed(s) && DateRecurs(s)
    ensures WindowHasMatch(s, after)
  {
    var first := Quotient(after, MINUTE_NS) + 1;
    var m := RecurringMinute(s, first);
    BoundariesOfMinutes(first, m);
    MatchesAtBoundary(s, m);
    assert InWindow(after, m * MINUTE_NS);
  }

  // ---- Every other schedule is missed from some starting time ----------------------------------

  /** Between July 1st of a year and September 1st of a following common year, no first of the month
      falls on the weekday of that July 1st. */
  lemma FirstsAvoidJulyWeekday(y: int, z: int, m: int)
    requires !Leap(y + 1) && 1 <= m <= 12
    requires 0 < DayNumber(Date(z, m, 1)) - DayNumber(Date(y, 7, 1)) < 427
    ensures Weekday(DayNumber(Date(z, m, 1))) != Weekday(DayNumber(Date(y, 7, 1)))
  {
    var f := DayNumber(Date(z, m, 1));
    YearStep(y);
    YearStep(y + 1);
    DateWithinYear(Date(z, m, 1));
    if f < YearStart(y + 1) {
      YearIsUnique(f, y, z);
    } else {
      YearIsUnique(f, y + 1, z);
    }
    JulyOffset(y, f - DayNumber(Date(y, 7, 1)), z, m);
    SameWeekday(f, DayNumber(Date(y, 7, 1)));
  }

  lemma SameWeekday(a: int, b: int)
    ensures Weekday(a) == Weekday(b) <==> (a - b) % 7 == 0
  {
  }

  lemma JulyOffset(y: int, k: int, z: int, m: int)
    requires !Leap(y + 1) && 1 <= m <= 12 && (z == y || z == y + 1)
    requires k == DayNumber(Date(z, m, 1)) - DayNumber(Date(y, 7, 1)) && 0 < k < 427
    ensures k % 7 != 0
  {
    YearStep(y);
  }

  /** A year whose July 1st has weekday `x` and whose next year is common. */
  function JulyYear(x: int): int
    requires 0 <= x < 7
  {
    if x == 0 then 2001 else if x == 1 then 2002 else if x == 2 then 1997 else if x == 3 then 1998
    else if x == 4 then 2004 else if x == 5 then 2005 else 2006
  }

  lemma JulyYearWeekday(x: int)
    requires 0 <= x < 7
    ensures !Leap(JulyYear(x) + 1) && Weekday(DayNumber(Date(JulyYear(x), 7, 1))) == x
    ensures 0 < DayNumber(Date(JulyYear(x), 7, 1)) < 20_000
  {
  }

  lemma DayAvoidsWeekday(y: int, d: int, n: int)
    requires !Leap(y + 1) && 1 <= d <= 31
    requires 0 <= n - d - DayNumber(Date(y, 7, 1)) <= 366 && DateOf(n).day == d
    ensures Weekday(n - d + 1) != Weekday(DayNumber(Date(y, 7, 1)))
  {
    var date := DateOf(n);
    assert DayNumber(Date(date.year, date.month, 1)) == n - d + 1;
    FirstsAvoidJulyWeekday(y, date.year, date.month);
  }

  lemma ShiftWeekday(n: int, d: int, w: int)
    requires 0 <= w < 7
    ensures Weekday(n) == w <==> Weekday(n - d + 1) == (w - d + 1) % 7
  {
  }

  /** A fixed day of month on a fixed weekday is absent from 367 consecutive days. */
  lemma DayAndWeekdayGap(d: int, w: int) returns (start: int)
    requires 1 <= d <= 31 && 0 <= w < 7
    ensures 0 < start < 20_100
    ensures forall n :: start <= n <= start + 366 ==> !(DateOf(n).day == d && Weekday(n) == w)
  {
    var y := JulyYear((w - d + 1) % 7);
    JulyYearWeekday((w - d + 1) % 7);
    start := DayNumber(Date(y, 7, 1)) + d;
    forall n | start <= n <= start + 366 && DateOf(n).day == d
      ensures Weekday(n) != w
    {
      DayAvoidsWeekday(y, d, n);
      ShiftWeekday(n, d, w);
    }
  }

  /** A date missing from common years is absent from 367 consecutive days of 2001 and 2002. */
  lemma RareDateGap(m: int, d: int) returns (start: int)
    requires 1 <= m <= 12 && d > ShortestMonth(m)
    ensures 0 < start < 20_100
    ensures forall n :: start <= n <= start + 366 ==> !(DateOf(n).day == d && DateOf(n).month == m)
  {
    start := YearStart(2001);
    YearStep(2001);
    YearStep(2002);
    forall n | start <= n <= start + 366 && DateOf(n).month == m
      ensures DateOf(n).day != d
    {
      DateWithinYear(DateOf(n));
      YearIsUnique(n, DateOf(n).year, if n < YearStart(2002) then 2001 else 2002);
    }
  }

  lemma StartOfDay(start: int)
    requires 0 < start < 20_100
    ensures var after := start * 1440 * MINUTE_NS - 1;
            FirstCursor(after) == start * 1440 * MINUTE_NS && InRange(after)
  {
    assert Quotient(start * 1440 * MINUTE_NS - 1, MINUTE_NS) == start * 1440 - 1;
  }

  lemma MinuteInDays(start: int, t: int)
    requires IsBoundary(t) && start * 1440 * MINUTE_NS <= t <= start * 1440 * MINUTE_NS + WINDOW_NS
    ensures t == t / MINUTE_NS * MINUTE_NS && start <= t / MINUTE_NS / 1440 <= start + 366
  {
  }

  lemma QuietDays(s: Schedule, start: int)
    requires 0 < start < 20_100
    requires forall n :: start <= n <= start + 366 ==> !DayMatches(s, n)
    ensures InRange(start * 1440 * MINUTE_NS - 1)
    ensures !WindowHasMatch(s, start * 1440 * MINUTE_NS - 1)
  {
    hide Matches, DayMatches, MinuteMatches, FieldMatches;
    var after := start * 1440 * MINUTE_NS - 1;
    StartOfDay(start);
    forall t | InWindow(after, t)
      ensures !Matches(s, t)
    {
      MinuteInDays(start, t);
      MatchesAtBoundary(s, t / MINUTE_NS);
    }
  }

  lemma RareScheduleMisses(s: Schedule) returns (after: int)
    requires WellFormed(s) && !DateRecurs(s)
    ensures after >= 0 && InRange(after) && !WindowHasMatch(s, after)
  {
    var start: int;
    if s.dayOfWeek >= 0 {
      start := DayAndWeekdayGap(s.dayOfMonth, s.dayOfWeek);
    } else {
      start := RareDateGap(s.month, s.dayOfMonth);
    }
    assert forall n :: start <= n <= start + 366 ==> !DayMatches(s, n);
    QuietDays(s, start);
    after := start * 1440 * MINUTE_NS - 1;
  }

  /** The search succeeds from every starting time exactly for the schedules that recur. */
  lemma SearchNeverTimesOut(s: Schedule)
    requires WellFormed(s)
    ensures (forall after :: after >= 0 && InRange(after) ==> WindowHasMatch(s, after))
            <==> DateRecurs(s)
  {
    if DateRecurs(s) {
      forall after | after >= 0 && InRange(after)
        ensures WindowHasMatch(s, after)
      {
        RecurringScheduleFires(s, after);
      }
    } else {
      var after := RareScheduleMisses(s);
    }
  }
}
