/** What the text of a schedule means in wall time: which minute boundaries it matches, and what the
    search answers for the plainest texts. */
module CronMeaning {
  import opened Text
  import opened Calendar
  import opened CronSchedule
  import opened CronFormat

  /** The minutes 0, k, 2k, ... below 60, from `from` on. */
  function Marks(k: int, from: nat): seq<int>
    requires k > 0
    decreases 60 - from
  {
    if from >= 60 then [] else [from] + Marks(k, from + k)
  }

  lemma {:induction false} MarksIff(k: int, from: nat, x: int)
    requires k > 0 && from % k == 0
    ensures x in Marks(k, from) <==> from <= x < 60 && x % k == 0
    decreases 60 - from
  {
    if from < 60 {
      NextMultiple(k, from, x);
      MarksIff(k, from + k, x);
    }
  }

  lemma NextMultiple(k: int, from: nat, x: int)
    requires k > 0 && from % k == 0
    ensures (from + k) % k == 0
    ensures from < x < from + k ==> x % k == x - from != 0
  {
    var q := from / k;
    assert from == q * k && from + k == (q + 1) * k + 0;
    Remainder(k, q + 1, 0);
    if from < x < from + k {
      Remainder(k, q, x - from);
    }
  }

  lemma SmallMultiple(d: int, k: int)
    requires -k < d * k < k
    ensures d == 0
  {
  }

  lemma Difference(a: int, q: int, k: int)
    ensures (a - q) * k == a * k - q * k
  {
  }

  lemma Remainder(k: int, q: int, r: int)
    requires 0 <= r < k
    ensures (q * k + r) % k == r
  {
    var n := q * k + r;
    var a, b := n / k, n % k;
    assert n == a * k + b;
    Difference(a, q, k);
    SmallMultiple(a - q, k);
  }

  /** The last four fields admit the hour and the day of minute `m`; -1 stands for `*`. */
  predicate RestAdmits(hour: int, day: int, month: int, weekday: int, m: int) {
    && (hour == -1 || m / 60 % 24 == hour)
    && (day == -1 || DateOf(m / 1440).day == day)
    && (month == -1 || DateOf(m / 1440).month == month)
    && (weekday == -1 || Weekday(m / 1440) == weekday)
  }

  predicate InFieldRanges(hour: int, day: int, month: int, weekday: int) {
    FieldIn(hour, 0, 23) && FieldIn(day, 1, 31) && FieldIn(month, 1, 12) && FieldIn(weekday, 0, 6)
  }

  function RestText(hour: int, day: int, month: int, weekday: int): string {
    " " + (FormatField(hour) + (" " + (FormatField(day) + (" " + (FormatField(month) + (" " + FormatField(weekday)))))))
  }

  lemma ParsedText(s: Schedule)
    requires WellFormed(s) && s.expression == []
    ensures FormatSchedule(s) == FormatMinute(s) + RestText(s.hour, s.dayOfMonth, s.month, s.dayOfWeek)
    ensures ParseSchedule(FormatSchedule(s))
         == Ok(s.(minuteStep := KeptStep(s.minuteStep), expression := FormatSchedule(s)))
  {
    hide ParseSchedule, FormatMinute, FormatField;
    FormatReads(s);
  }

  /** A text with a plain minute matches a boundary exactly when each of its fields is `*` or the
      number of the boundary's minute, hour, day, month or weekday. */
  lemma PlainMatches(minute: int, hour: int, day: int, month: int, weekday: int, s: Schedule, m: int)
    requires FieldIn(minute, 0, 59) && InFieldRanges(hour, day, month, weekday)
    requires ParseSchedule(FormatField(minute) + RestText(hour, day, month, weekday)) == Ok(s)
    ensures Matches(s, m * MINUTE_NS)
            <==> (minute == -1 || m % 60 == minute) && RestAdmits(hour, day, month, weekday, m)
  {
    hide ParseSchedule, FormatField, RestText, FormatSchedule, Matches;
    ParsedText(Schedule(minute, 0, hour, day, month, weekday, ""));
    MatchesAtBoundary(s, m);
  }

  /** A text with a stepped minute matches, among the boundaries its other fields admit, those of the
      minutes 0, k, 2k, ... of each hour. */
  lemma StepMatches(k: int, hour: int, day: int, month: int, weekday: int, s: Schedule, m: int)
    requires 1 <= k <= 59 && InFieldRanges(hour, day, month, weekday)
    requires ParseSchedule("*/" + FormatInt(k) + RestText(hour, day, month, weekday)) == Ok(s)
    ensures Matches(s, m * MINUTE_NS) <==> m % 60 in Marks(k, 0) && RestAdmits(hour, day, month, weekday, m)
  {
    hide ParseSchedule, FormatInt, RestText, FormatSchedule, Matches, Marks;
    ParsedText(Schedule(-1, k, hour, day, month, weekday, ""));
    MatchesAtBoundary(s, m);
    MarksIff(k, 0, m % 60);
  }

  lemma EveryRest()
    ensures RestText(-1, -1, -1, -1) == " * * * *"
  {
  }

  // ---- What the search answers -----------------------------------------------------------------

  /** The answer is the one boundary that the search can give. */
  lemma NextIsUnique(s: Schedule, after: int, t: int, u: int)
    requires IsNext(s, after, t) && IsNext(s, after, u)
    ensures t == u
  {
  }

  lemma MinutesBetween(m: nat, n: int, t: int)
    requires IsBoundary(t) && FirstCursor(m * MINUTE_NS) <= t < n * MINUTE_NS
    ensures t == t / MINUTE_NS * MINUTE_NS && m < t / MINUTE_NS < n
  {
    assert FirstCursor(m * MINUTE_NS) == (m + 1) * MINUTE_NS;
  }

  lemma NextAt(s: Schedule, m: nat, n: int)
    requires m < n <= m + 60 && Matches(s, n * MINUTE_NS)
    requires forall x :: m < x < n ==> !MatchesMinute(s, x)
    ensures IsNext(s, m * MINUTE_NS, n * MINUTE_NS)
  {
    hide Matches, MatchesMinute;
    assert FirstCursor(m * MINUTE_NS) == (m + 1) * MINUTE_NS;
    forall t | IsBoundary(t) && FirstCursor(m * MINUTE_NS) <= t < n * MINUTE_NS
      ensures !Matches(s, t)
    {
      MinutesBetween(m, n, t);
      MatchesAtBoundary(s, t / MINUTE_NS);
    }
  }

  /** `k` minutes after minute `m`, or the next full hour when that is sooner. */
  function NextStep(k: int, m: nat): int {
    if m % 60 + k < 60 then m + k else (m / 60 + 1) * 60
  }

  lemma StepMinute(k: int, s: Schedule, m: int)
    requires 1 <= k <= 59 && ParseSchedule("*/" + FormatInt(k) + " * * * *") == Ok(s)
    ensures MatchesMinute(s, m) == Matches(s, m * MINUTE_NS) == (m % 60 % k == 0)
  {
    hide ParseSchedule, FormatInt, Matches, Marks, MatchesMinute, RestText;
    EveryRest();
    StepMatches(k, -1, -1, -1, -1, s, m);
    MarksIff(k, 0, m % 60);
    MatchesAtBoundary(s, m);
  }

  lemma StepTarget(k: int, m: nat)
    requires 1 <= k <= 59 && m % 60 % k == 0
    ensures m < NextStep(k, m) <= m + 60 && NextStep(k, m) % 60 % k == 0
  {
    NextMultiple(k, m % 60, 0);
    if m % 60 + k < 60 {
      assert (m + k) % 60 == m % 60 + k;
    }
  }

  lemma BetweenSteps(k: int, m: nat, x: int)
    requires 1 <= k <= 59 && m % 60 % k == 0 && m < x < NextStep(k, m)
    ensures x % 60 % k != 0
  {
    assert x % 60 == m % 60 + (x - m);
    NextMultiple(k, m % 60, x % 60);
  }

  /** Every `k` minutes, from a boundary the text matches: k minutes on, or the next full hour when that
      is sooner. */
  lemma StepNext(k: int, s: Schedule, m: nat, t: int)
    requires 1 <= k <= 59 && ParseSchedule("*/" + FormatInt(k) + " * * * *") == Ok(s)
    requires Matches(s, m * MINUTE_NS)
    ensures IsNext(s, m * MINUTE_NS, t)
            <==> t == NextStep(k, m) * MINUTE_NS
  {
    hide *;
    var n := NextStep(k, m);
    EveryRest();
    StepMinute(k, s, m);
    StepMinute(k, s, n);
    StepTarget(k, m);
    forall x | m < x < n
      ensures !MatchesMinute(s, x)
    {
      StepMinute(k, s, x);
      BetweenSteps(k, m, x);
    }
    MatchesAtBoundary(s, n);
    NextAt(s, m, n);
    if IsNext(s, m * MINUTE_NS, t) {
      NextIsUnique(s, m * MINUTE_NS, t, n * MINUTE_NS);
    }
  }

  /** At minute `v` of every hour, from any boundary: the next minute `v`, an hour on from a boundary the
      text matches. */
  lemma FixedNext(v: int, s: Schedule, m: nat, t: int)
    requires 0 <= v < 60 && ParseSchedule(FormatInt(v) + " * * * *") == Ok(s)
    ensures IsNext(s, m * MINUTE_NS, t) <==> t == (m + 1 + (v - m - 1) % 60) * MINUTE_NS
    ensures Matches(s, m * MINUTE_NS) ==> m + 1 + (v - m - 1) % 60 == m + 60
  {
    hide ParseSchedule, FormatInt, Matches, IsNext, MatchesMinute;
    var n := m + 1 + (v - m - 1) % 60;
    EveryRest();
    assert FormatField(v) == FormatInt(v);
    PlainMatches(v, -1, -1, -1, -1, s, m);
    PlainMatches(v, -1, -1, -1, -1, s, n);
    forall x | m < x < n
      ensures !MatchesMinute(s, x)
    {
      PlainMatches(v, -1, -1, -1, -1, s, x);
      MatchesAtBoundary(s, x);
    }
    NextAt(s, m, n);
    if IsNext(s, m * MINUTE_NS, t) {
      NextIsUnique(s, m * MINUTE_NS, t, n * MINUTE_NS);
    }
  }
}
