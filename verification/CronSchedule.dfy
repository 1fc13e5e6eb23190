/** The built-in five-field cron schedule: parsing, matching against UTC wall time, and the
    minute-by-minute search for the next firing. Wall time is in nanoseconds since the epoch. */
module CronSchedule {
  import opened Text
  import opened Calendar

  const SECOND_NS: int := 1_000_000_000
  const MINUTE_NS: int := 60_000_000_000
  /** The search looks at one boundary per minute for 366 days, both ends included. */
  const WINDOW_MINUTES: int := 527_040
  const WINDOW_NS: int := 31_622_400_000_000_000
  const MAX_EXPRESSION: nat := 513

  /** A negative field stands for `*`; `minuteStep > 0` stands for a minute field of that step. */
  datatype Schedule = Schedule(
    minute: int, minuteStep: int, hour: int, dayOfMonth: int, month: int, dayOfWeek: int,
    expression: string)

  predicate FieldIn(v: int, min: int, max: int) {
    v == -1 || min <= v <= max
  }

  /** The field ranges every parsed schedule has. */
  predicate WellFormed(s: Schedule) {
    && FieldIn(s.minute, 0, 59) && s.minuteStep <= 59 && (s.minuteStep > 0 ==> s.minute == -1)
    && FieldIn(s.hour, 0, 23) && FieldIn(s.dayOfMonth, 1, 31)
    && FieldIn(s.month, 1, 12) && FieldIn(s.dayOfWeek, 0, 6)
  }

  // ---- Parsing -------------------------------------------------------------------------------

  function ParseField(field: string, min: int, max: int): (r: Result<int>)
    ensures r.Ok? ==> FieldIn(r.value, min, max)
    ensures field == "*" ==> r == Ok(-1)
  {
    if field == [] then Err("sc.cron_schedule.invalid_field")
    else if field == "*" then Ok(-1)
    else
      var scan := ScanInt(CStr(field));
      if scan.Scanned? && scan.rest == [] && min <= scan.value <= max then Ok(scan.value)
      else Err("sc.cron_schedule.field_out_of_range")
  }

  /** The minute and the step. */
  function ParseMinuteField(field: string): (r: Result<(int, int)>)
    ensures r.Ok? ==> FieldIn(r.value.0, 0, 59) && r.value.1 <= 59 && (r.value.1 > 0 ==> r.value.0 == -1)
  {
    if |field| >= 3 && field[..2] == "*/" then
      match ParseField(field[2..], 1, 59)
      case Ok(step) => Ok((-1, step))
      case Err(code) => Err(code)
    else
      match ParseField(field, 0, 59)
      case Ok(minute) => Ok((minute, 0))
      case Err(code) => Err(code)
  }

  function TokenLength(s: string): (k: nat)
    ensures k <= |s|
    ensures s != [] && !IsBlank(s[0]) ==> k > 0
  {
    if s == [] || IsBlank(s[0]) then 0 else 1 + TokenLength(s[1..])
  }

  /** The tokens `strtok_r` cuts out of a string at blanks and tabs. */
  function Tokens(s: string): seq<string>
    decreases |s|
  {
    if s == [] then []
    else if IsBlank(s[0]) then Tokens(s[1..])
    else [s[..TokenLength(s)]] + Tokens(s[TokenLength(s)..])
  }

  /** The schedule of five fields, its text not yet recorded. */
  function ParseTokens(fields: seq<string>): (r: Result<Schedule>)
    ensures r.Ok? ==> WellFormed(r.value)
  {
    if |fields| != 5 then Err("sc.cron_schedule.field_count")
    else
      var minute := ParseMinuteField(fields[0]);
      var hour := ParseField(fields[1], 0, 23);
      var day := ParseField(fields[2], 1, 31);
      var month := ParseField(fields[3], 1, 12);
      var weekday := ParseField(fields[4], 0, 6);
      if minute.Err? then Err(minute.code)
      else if hour.Err? then Err(hour.code)
      else if day.Err? then Err(day.code)
      else if month.Err? then Err(month.code)
      else if weekday.Err? then Err(weekday.code)
      else Ok(Schedule(minute.value.0, minute.value.1, hour.value, day.value, month.value, weekday.value, ""))
  }

  function ParseSchedule(expression: string): (r: Result<Schedule>)
    ensures r.Ok? ==> WellFormed(r.value)
  {
    if expression == [] then Err("sc.cron_schedule.invalid_argument")
    else
      var s := ParseTokens(Tokens(CStr(expression)));
      var original := TrimEnd(SkipSpace(expression));
      if s.Err? then s
      else if |original| >= MAX_EXPRESSION then Err("sc.cron_schedule.too_long")
      else Ok(s.value.(expression := CStr(original)))
  }

  // ---- Matching ------------------------------------------------------------------------------

  predicate FieldMatches(expected: int, actual: int) {
    expected < 0 || expected == actual
  }

  predicate MinuteMatches(s: Schedule, minute: int) {
    if s.minuteStep > 0 then minute % s.minuteStep == 0 else FieldMatches(s.minute, minute)
  }

  predicate DayMatches(s: Schedule, day: int) {
    && FieldMatches(s.dayOfMonth, DateOf(day).day)
    && FieldMatches(s.month, DateOf(day).month)
    && FieldMatches(s.dayOfWeek, Weekday(day))
  }

  /** Match of the whole second `seconds`, broken down as `gmtime_r` does. */
  predicate MatchesSecond(s: Schedule, seconds: int) {
    && MinuteMatches(s, seconds / 60 % 60)
    && FieldMatches(s.hour, seconds / 3600 % 24)
    && DayMatches(s, seconds / 86400)
  }

  predicate Matches(s: Schedule, when: int) {
    MatchesSecond(s, Quotient(when, SECOND_NS))
  }

  /** The same match, for a minute boundary given as a count of minutes since the epoch. */
  predicate MatchesMinute(s: Schedule, m: int) {
    && MinuteMatches(s, m % 60)
    && FieldMatches(s.hour, m / 60 % 24)
    && DayMatches(s, m / 1440)
  }

  lemma MatchesAtBoundary(s: Schedule, m: int)
    ensures Matches(s, m * MINUTE_NS) == MatchesMinute(s, m)
  {
    var sec := Quotient(m * MINUTE_NS, SECOND_NS);
    assert sec == m * 60;
    assert sec / 60 == m && sec / 3600 == m / 60 && sec / 86400 == m / 1440;
  }

  // ---- The search ----------------------------------------------------------------------------

  /** Where the search starts. */
  function FirstCursor(after: int): int {
    (Quotient(after, MINUTE_NS) + 1) * MINUTE_NS
  }

  /** The cursor arithmetic stays inside `int64_t`. */
  predicate InRange(after: int) {
    INT64_MIN <= after && FirstCursor(after) + WINDOW_NS + MINUTE_NS <= INT64_MAX
  }

  predicate IsBoundary(t: int) {
    t % MINUTE_NS == 0
  }

  ghost predicate InWindow(after: int, t: int) {
    IsBoundary(t) && FirstCursor(after) <= t <= FirstCursor(after) + WINDOW_NS
  }

  ghost predicate WindowHasMatch(s: Schedule, after: int) {
    exists t :: InWindow(after, t) && Matches(s, t)
  }

  lemma FirstCursorIsBoundary(after: int)
    ensures IsBoundary(FirstCursor(after)) && FirstCursor(after) > after
  {
  }

  /** The first cursor is the least boundary strictly after `after` exactly when truncation and
      flooring agree; otherwise the boundary just above a negative time is skipped. */
  lemma FirstCursorIsLeast(after: int)
    ensures (forall t :: IsBoundary(t) && after < t ==> FirstCursor(after) <= t)
            <==> (after >= 0 || IsBoundary(after))
  {
    if after >= 0 || IsBoundary(after) {
      assert FirstCursor(after) == (after / MINUTE_NS + 1) * MINUTE_NS;
      forall t | IsBoundary(t) && after < t
        ensures FirstCursor(after) <= t
      {
        assert t == t / MINUTE_NS * MINUTE_NS;
      }
    } else {
      var skipped := Quotient(after, MINUTE_NS) * MINUTE_NS;
      assert IsBoundary(skipped) && after < skipped < FirstCursor(after);
    }
  }

  lemma BoundaryGap(cursor: int, t: int)
    requires IsBoundary(cursor) && IsBoundary(t) && cursor <= t < cursor + MINUTE_NS
    ensures t == cursor
  {
  }

  /** No boundary of `from .. to` matches, `to` excluded. */
  ghost predicate Quiet(s: Schedule, from: int, to: int) {
    forall t :: IsBoundary(t) && from <= t < to ==> !Matches(s, t)
  }

  lemma QuietStep(s: Schedule, from: int, cursor: int)
    requires IsBoundary(cursor) && Quiet(s, from, cursor) && !Matches(s, cursor)
    ensures Quiet(s, from, cursor + MINUTE_NS)
  {
    forall t | IsBoundary(t) && from <= t < cursor + MINUTE_NS
      ensures !Matches(s, t)
    {
      if cursor <= t {
        BoundaryGap(cursor, t);
      }
    }
  }

  /** What finding `to` means, and what reaching the end of the window means. */
  lemma QuietUntil(s: Schedule, after: int, to: int)
    requires IsBoundary(to) && FirstCursor(after) <= to && Quiet(s, FirstCursor(after), to)
    ensures after >= 0 ==> forall t :: IsBoundary(t) && after < t < to ==> !Matches(s, t)
    ensures FirstCursor(after) + WINDOW_NS < to ==> !WindowHasMatch(s, after)
    ensures to <= FirstCursor(after) + WINDOW_NS && Matches(s, to) ==>
              InWindow(after, to) && WindowHasMatch(s, after) && after < to
  {
    FirstCursorIsLeast(after);
  }

  /** The least matching boundary of the window. */
  ghost predicate IsNext(s: Schedule, after: int, t: int) {
    InWindow(after, t) && Matches(s, t) && Quiet(s, FirstCursor(after), t)
  }

  /** Finds the least matching boundary of the window, which for every `after >= 0` is the least
      matching boundary after `after`; it times out exactly when the window has none. */
  method NextAfter(s: Schedule, after: int) returns (r: Result<int>)
    requires InRange(after)
    ensures r.Ok? <==> WindowHasMatch(s, after)
    ensures r.Ok? ==> IsNext(s, after, r.value) && after < r.value
    ensures r.Ok? && after >= 0 ==>
              forall t :: IsBoundary(t) && after < t < r.value ==> !Matches(s, t)
    ensures r.Err? ==> r.code == "sc.cron_schedule.next_not_found"
  {
    hide Matches, Quotient, FirstCursor, InWindow, WindowHasMatch;
    var cursor := FirstCursor(after);
    var limit := cursor + WINDOW_NS;
    FirstCursorIsBoundary(after);
    while cursor <= limit
      invariant FirstCursor(after) <= cursor && IsBoundary(cursor)
      invariant Quiet(s, FirstCursor(after), cursor)
      decreases limit - cursor
    {
      if Matches(s, cursor) {
        QuietUntil(s, after, cursor);
        return Ok(cursor);
      }
      QuietStep(s, FirstCursor(after), cursor);
      cursor := cursor + MINUTE_NS;
    }
    QuietUntil(s, after, cursor);
    return Err("sc.cron_schedule.next_not_found");
  }
}
