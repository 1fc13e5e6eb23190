/** The proleptic Gregorian calendar in UTC, as `gmtime_r` exposes it to the cron matcher.
    Day numbers count days since 1970-01-01; the year formula is the one of "Seconds Since the
    Epoch", section 4.16 of the POSIX.1-2017 Base Definitions. */
module Calendar {

  datatype Date = Date(year: int, month: int, day: int)

  predicate Leap(y: int) {
    y % 4 == 0 && (y % 100 != 0 || y % 400 == 0)
  }

  function DaysInYear(y: int): int {
    if Leap(y) then 366 else 365
  }

  function DaysInMonth(y: int, m: int): int {
    if m == 2 then (if Leap(y) then 29 else 28)
    else if m == 4 || m == 6 || m == 9 || m == 11 then 30
    else 31
  }

  /** Days of year `y` before the first of month `m`. */
  function DaysBeforeMonth(y: int, m: int): int {
    (if m <= 1 then 0 else if m == 2 then 31 else if m == 3 then 59 else if m == 4 then 90
     else if m == 5 then 120 else if m == 6 then 151 else if m == 7 then 181 else if m == 8 then 212
     else if m == 9 then 243 else if m == 10 then 273 else if m == 11 then 304 else 334)
    + (if m > 2 && Leap(y) then 1 else 0)
  }

  predicate ValidDate(d: Date) {
    1 <= d.month <= 12 && 1 <= d.day <= DaysInMonth(d.year, d.month)
  }

  /** Day number of January 1st of year `y`. */
  function YearStart(y: int): int {
    365 * (y - 1970) + (y - 1969) / 4 - (y - 1901) / 100 + (y - 1601) / 400
  }

  function DayNumber(d: Date): int {
    YearStart(d.year) + DaysBeforeMonth(d.year, d.month) + d.day - 1
  }

  /** 0 is Sunday; day 0 was a Thursday. */
  function Weekday(n: int): (w: int)
    ensures 0 <= w < 7
  {
    (n + 4) % 7
  }

  lemma FourthYear(y: int)
    ensures (y - 1968) / 4 == (y - 1969) / 4 + (if y % 4 == 0 then 1 else 0)
  {
  }

  lemma HundredthYear(y: int)
    ensures (y - 1900) / 100 == (y - 1901) / 100 + (if y % 100 == 0 then 1 else 0)
    ensures y % 400 == 0 ==> y % 100 == 0
    ensures y % 100 == 0 ==> y % 4 == 0
  {
  }

  lemma YearStep(y: int)
    ensures YearStart(y + 1) == YearStart(y) + DaysInYear(y)
  {
    FourthYear(y);
    HundredthYear(y);
    assert (y - 1600) / 400 == (y - 1601) / 400 + (if y % 400 == 0 then 1 else 0);
  }

  lemma {:induction false} YearStartMonotone(y: int, z: int)
    requires y <= z
    ensures YearStart(y) + 365 * (z - y) <= YearStart(z)
    decreases z - y
  {
    if y < z {
      YearStep(y);
      YearStartMonotone(y + 1, z);
    }
  }

  lemma YearGrows(y: int)
    ensures YearStart(y) < YearStart(y + 1)
  {
    YearStep(y);
  }

  /** The year holding day `n`, found by walking from year `y`. */
  function SeekYear(n: int, y: int): (r: int)
    ensures YearStart(r) <= n < YearStart(r + 1)
    decreases if n < YearStart(y) then YearStart(y) - n
              else if YearStart(y + 1) <= n then n - YearStart(y + 1) + 1
              else 0
  {
    hide YearStart;
    YearGrows(y - 1);
    YearGrows(y);
    YearGrows(y + 1);
    if n < YearStart(y) then SeekYear(n, y - 1)
    else if YearStart(y + 1) <= n then SeekYear(n, y + 1)
    else y
  }

  lemma YearIsUnique(n: int, y: int, z: int)
    requires YearStart(y) <= n < YearStart(y + 1)
    requires YearStart(z) <= n < YearStart(z + 1)
    ensures y == z
  {
    if y < z {
      YearStartMonotone(y + 1, z);
    } else if z < y {
      YearStartMonotone(z + 1, y);
    }
  }

  function MonthOf(y: int, yday: int): (m: int)
    requires 0 <= yday < DaysInYear(y)
    ensures 1 <= m <= 12
    ensures DaysBeforeMonth(y, m) <= yday < DaysBeforeMonth(y, m) + DaysInMonth(y, m)
  {
    if yday < 31 then 1
    else if yday < DaysBeforeMonth(y, 3) then 2
    else if yday < DaysBeforeMonth(y, 4) then 3
    else if yday < DaysBeforeMonth(y, 5) then 4
    else if yday < DaysBeforeMonth(y, 6) then 5
    else if yday < DaysBeforeMonth(y, 7) then 6
    else if yday < DaysBeforeMonth(y, 8) then 7
    else if yday < DaysBeforeMonth(y, 9) then 8
    else if yday < DaysBeforeMonth(y, 10) then 9
    else if yday < DaysBeforeMonth(y, 11) then 10
    else if yday < DaysBeforeMonth(y, 12) then 11
    else 12
  }

  /** The calendar date of day `n`: the only valid date with that day number. */
  function DateOf(n: int): (d: Date)
    ensures ValidDate(d) && DayNumber(d) == n
  {
    var y := SeekYear(n, 1970);
    YearStep(y);
    var m := MonthOf(y, n - YearStart(y));
    Date(y, m, n - YearStart(y) - DaysBeforeMonth(y, m) + 1)
  }

  lemma DateWithinYear(d: Date)
    requires ValidDate(d)
    ensures YearStart(d.year) <= DayNumber(d) < YearStart(d.year + 1)
  {
    YearStep(d.year);
  }

  lemma MonthsDisjoint(y: int, m: int, k: int)
    requires 1 <= m < k <= 12
    ensures DaysBeforeMonth(y, m) + DaysInMonth(y, m) <= DaysBeforeMonth(y, k)
  {
  }

  lemma DateIsUnique(d: Date, e: Date)
    requires ValidDate(d) && ValidDate(e) && DayNumber(d) == DayNumber(e)
    ensures d == e
  {
    hide Leap, YearStart, DaysBeforeMonth, DaysInMonth;
    DateWithinYear(d);
    DateWithinYear(e);
    YearIsUnique(DayNumber(d), d.year, e.year);
    if d.month < e.month {
      MonthsDisjoint(d.year, d.month, e.month);
    } else if e.month < d.month {
      MonthsDisjoint(d.year, e.month, d.month);
    }
  }

  /** Day numbers name dates uniquely: `DateOf` inverts `DayNumber`. */
  lemma DateOfDayNumber(d: Date)
    requires ValidDate(d)
    ensures DateOf(DayNumber(d)) == d
  {
    DateIsUnique(d, DateOf(DayNumber(d)));
  }

  /** The date after `d` by the calendar's own rules. */
  function Tomorrow(d: Date): Date {
    if d.day < DaysInMonth(d.year, d.month) then Date(d.year, d.month, d.day + 1)
    else if d.month < 12 then Date(d.year, d.month + 1, 1)
    else Date(d.year + 1, 1, 1)
  }

  lemma TomorrowIsNext(d: Date)
    requires ValidDate(d)
    ensures ValidDate(Tomorrow(d)) && DayNumber(Tomorrow(d)) == DayNumber(d) + 1
  {
    YearStep(d.year);
  }

  /** Consecutive day numbers are consecutive dates. */
  lemma NextDay(n: int)
    ensures DateOf(n + 1) == Tomorrow(DateOf(n))
  {
    var d := DateOf(n);
    TomorrowIsNext(d);
    var t := Tomorrow(d);
    assert DayNumber(t) == n + 1;
    DateOfDayNumber(t);
  }

  /** The weekday moves on by one each day, round a week. */
  lemma NextWeekday(n: int)
    ensures Weekday(n + 1) == if Weekday(n) == 6 then 0 else Weekday(n) + 1
  {
  }

  lemma DayIs(d: Date, n: int)
    requires ValidDate(d) && DayNumber(d) == n
    ensures DateOf(n) == d
  {
    hide *;
    DateOfDayNumber(d);
  }

  lemma EpochNumber()
    ensures ValidDate(Date(1970, 1, 1)) && DayNumber(Date(1970, 1, 1)) == 0
  {
    hide DateOf, SeekYear;
  }

  /** The epoch was a Thursday; together with the laws of the next day and the next weekday this fixes
      every date. */
  lemma EpochDay()
    ensures DateOf(0) == Date(1970, 1, 1) && Weekday(0) == 4
  {
    hide DateOf, YearStart, DaysBeforeMonth, DaysInMonth;
    EpochNumber();
    DayIs(Date(1970, 1, 1), 0);
  }

  /** The year 2000 had a leap day; 1900 and 2023 had none. */
  lemma KnownDays()
    ensures DateOf(11_016) == Date(2000, 2, 29) && DateOf(11_017) == Date(2000, 3, 1)
    ensures DateOf(-25_509) == Date(1900, 2, 28) && DateOf(-25_508) == Date(1900, 3, 1)
    ensures DateOf(19_416) == Date(2023, 2, 28) && DateOf(19_417) == Date(2023, 3, 1)
  {
    hide DateOf;
    DayIs(Date(2000, 2, 29), 11_016);
    DayIs(Date(2000, 3, 1), 11_017);
    DayIs(Date(1900, 2, 28), -25_509);
    DayIs(Date(1900, 3, 1), -25_508);
    DayIs(Date(2023, 2, 28), 19_416);
    DayIs(Date(2023, 3, 1), 19_417);
  }
}
