/** The cron job store: an ordered vector keyed by job id, and its percent-escaped line format. */
module CronStore {
  import opened Sequences
  import opened Text
  import opened CronSchedule
  import opened CronFormat

  const MAX_BYTES: nat := 1_048_576
  const HEADER: string := "sc-cron-jobs-v1"

  datatype Kind = Agent | Shell

  datatype Job = Job(
    id: string, schedule: Schedule, kind: Kind, command: string, target: string,
    enabled: bool, once: bool, cancelRequested: bool, lastRun: int64, scheduleText: string)

  // ---- Percent escaping ------------------------------------------------------------------------

  predicate NeedsEscape(c: char) {
    c == '%' || c == '|' || c < ' ' || c as int == 0x7F
  }

  function EscapeChar(c: char): string {
    if NeedsEscape(c) then ['%', HexDigit(c as int / 16, 'A'), HexDigit(c as int % 16, 'A')] else [c]
  }

  function Escape(s: string): string {
    if s == [] then [] else EscapeChar(s[0]) + Escape(s[1..])
  }

  function Unescape(s: string): Result<string> {
    if s == [] then Ok([])
    else if s[0] == '%' then
      if |s| < 3 || HexValue(s[1]) < 0 || HexValue(s[2]) < 0 then Err("sc.cron_job_store.escape_invalid")
      else Prepend((16 * HexValue(s[1]) + HexValue(s[2])) as char, Unescape(s[3..]))
    else Prepend(s[0], Unescape(s[1..]))
  }

  function Prepend(c: char, r: Result<string>): Result<string> {
    if r.Ok? then Ok([c] + r.value) else r
  }

  method WriteEscaped(value: string) returns (out: string)
    ensures out == Escape(value)
  {
    out := [];
    var i := 0;
    while i < |value|
      invariant i <= |value|
      invariant out + Escape(value[i..]) == Escape(value)
    {
      var ch := value[i];
      var piece := [ch];
      if ch == '%' || ch == '|' || ch < ' ' || ch as int == 0x7F {
        piece := ['%', HexDigit(ch as int / 16, 'A'), HexDigit(ch as int % 16, 'A')];
      }
      EscapeUnfold(value, i, out);
      out := out + piece;
      i := i + 1;
    }
  }

  lemma EscapeUnfold(value: string, i: nat, out: string)
    requires i < |value|
    ensures out + Escape(value[i..]) == (out + EscapeChar(value[i])) + Escape(value[i + 1..])
  {
    assert value[i..][1..] == value[i + 1..];
    assert out + (EscapeChar(value[i]) + Escape(value[i + 1..]))
        == (out + EscapeChar(value[i])) + Escape(value[i + 1..]);
  }

  function After(out: string, r: Result<string>): Result<string> {
    if r.Ok? then Ok(out + r.value) else r
  }

  lemma AfterPrepend(out: string, c: char, r: Result<string>)
    ensures After(out, Prepend(c, r)) == After(out + [c], r)
  {
    assert r.Ok? ==> out + ([c] + r.value) == (out + [c]) + r.value;
  }

  method DecodeEscaped(value: string) returns (r: Result<string>)
    ensures r == Unescape(value)
  {
    var out := [];
    var i := 0;
    assert value[0..] == value;
    assert forall t: string :: [] + t == t;
    while i < |value|
      invariant i <= |value|
      invariant Unescape(value) == After(out, Unescape(value[i..]))
    {
      var ch := value[i];
      if ch == '%' {
        var hi := if i + 2 < |value| then HexValue(value[i + 1]) else -1;
        var lo := if i + 2 < |value| then HexValue(value[i + 2]) else -1;
        if hi < 0 || lo < 0 {
          return Err("sc.cron_job_store.escape_invalid");
        }
        assert value[i..][3..] == value[i + 3..];
        AfterPrepend(out, (16 * hi + lo) as char, Unescape(value[i + 3..]));
        out := out + [(16 * hi + lo) as char];
        i := i + 2;
      } else {
        assert value[i..][1..] == value[i + 1..];
        AfterPrepend(out, ch, Unescape(value[i + 1..]));
        out := out + [ch];
      }
      i := i + 1;
    }
    assert out + [] == out;
    return Ok(out);
  }

  lemma EscapedCharDecodes(c: char, t: string)
    ensures Unescape(EscapeChar(c) + t) == Prepend(c, Unescape(t))
  {
    var s := EscapeChar(c) + t;
    if NeedsEscape(c) {
      assert s[3..] == t;
    } else {
      assert s[1..] == t;
    }
  }

  /** Every byte string survives escaping. */
  lemma {:induction false} UnescapeEscape(s: string)
    ensures Unescape(Escape(s)) == Ok(s)
  {
    if s != [] {
      UnescapeEscape(s[1..]);
      EscapedCharDecodes(s[0], Escape(s[1..]));
      assert [s[0]] + s[1..] == s;
    }
  }

  /** A percent sign without two hexadecimal digits behind it is refused, wherever it stands. */
  lemma {:induction false} BrokenEscape(plain: string, rest: string)
    requires '%' !in plain
    requires |rest| < 2 || HexValue(rest[0]) < 0 || HexValue(rest[1]) < 0
    ensures Unescape(plain + ("%" + rest)) == Err("sc.cron_job_store.escape_invalid")
  {
    var s := plain + ("%" + rest);
    if plain != [] {
      assert s[1..] == plain[1..] + ("%" + rest);
      BrokenEscape(plain[1..], rest);
    } else {
      assert s == "%" + rest && (|rest| >= 2 ==> s[1] == rest[0] && s[2] == rest[1]);
    }
  }

  /** Escaped text never holds a separator, a line break or any other control character. */
  lemma {:induction false} EscapeIsPlain(s: string)
    ensures forall i :: 0 <= i < |Escape(s)| ==> Escape(s)[i] == '%' || !NeedsEscape(Escape(s)[i])
  {
    if s != [] {
      EscapeIsPlain(s[1..]);
    }
  }

  /** Written as it stands: a visible character or a blank, neither the percent sign nor the separator. */
  predicate Clean(s: string) {
    forall i :: 0 <= i < |s| ==> 0x20 <= s[i] as int != 0x7F && s[i] != '%' && s[i] != '|'
  }

  /** Escaping leaves exactly the clean texts alone, and lengthens every other. */
  lemma {:induction false} CleanIsKept(s: string)
    ensures Clean(s) <==> Escape(s) == s
    ensures !Clean(s) <==> |Escape(s)| > |s|
    ensures Escape("|") == "%7C" && Escape("\n") == "%0A" && Escape("%") == "%25"
  {
    if s != [] {
      CleanIsKept(s[1..]);
      var first, tail := s[0], s[1..];
      assert s == [first] + tail;
      assert Clean(s) <==> !NeedsEscape(first) && Clean(tail) by {
        assert forall i :: 1 <= i < |s| ==> s[i] == tail[i - 1];
        assert forall i :: 0 <= i < |tail| ==> tail[i] == s[i + 1];
      }
    }
  }

  // ---- One job, one line -----------------------------------------------------------------------

  /** The schedule text a save writes. */
  function SavedText(job: Job): (r: string)
    ensures r != []
  {
    if job.scheduleText != [] then job.scheduleText else FormatSchedule(job.schedule)
  }

  function FormatBool(b: bool): string {
    if b then "true" else "false"
  }

  function KindName(k: Kind): string {
    if k.Shell? then "shell" else "agent"
  }

  function JobFields(job: Job): seq<string> {
    ["job", KindName(job.kind), FormatBool(job.enabled), FormatBool(job.once), FormatInt(job.lastRun),
     Escape(job.id), Escape(SavedText(job)), Escape(job.target), Escape(job.command)]
  }

  function JoinBars(fields: seq<string>): string
    requires fields != []
  {
    if |fields| == 1 then fields[0] else fields[0] + ['|'] + JoinBars(fields[1..])
  }

  function JobLine(job: Job): string {
    JoinBars(JobFields(job))
  }

  function ParseBool(s: string): Option<bool> {
    if s == "true" then Some(true) else if s == "false" then Some(false) else None
  }

  function ParseInt64(s: string): Option<int64> {
    var scan := ScanInt(CStr(s));
    if scan.Scanned? && scan.rest == [] && INT64_MIN <= scan.value <= INT64_MAX then Some(scan.value)
    else None
  }

  datatype Scalars = Scalars(kind: Kind, enabled: bool, once: bool, lastRun: int64)

  function ParseScalars(kind: string, enabled: string, once: string, lastRun: string): Result<Scalars> {
    if kind != "agent" && kind != "shell" then Err("sc.cron_job_store.kind_invalid")
    else
      var e := ParseBool(enabled);
      var o := ParseBool(once);
      var l := ParseInt64(lastRun);
      if e.None? || o.None? || l.None? then Err("sc.cron_job_store.scalar_invalid")
      else Ok(Scalars(if kind == "shell" then Shell else Agent, e.value, o.value, l.value))
  }

  datatype Texts = Texts(id: string, schedule: string, target: string, command: string)

  function ParseTexts(id: string, schedule: string, target: string, command: string): Result<Texts> {
    var i := Unescape(id);
    var s := Unescape(schedule);
    var t := Unescape(target);
    var c := Unescape(command);
    if i.Err? then Err(i.code)
    else if s.Err? then Err(s.code)
    else if t.Err? then Err(t.code)
    else if c.Err? then Err(c.code)
    else Ok(Texts(i.value, s.value, t.value, c.value))
  }

  function MakeJob(n: Scalars, t: Texts): Result<Job> {
    var schedule := ParseSchedule(t.schedule);
    if schedule.Err? then Err(schedule.code)
    else Ok(Job(t.id, schedule.value, n.kind, t.command, t.target, n.enabled, n.once, false,
                n.lastRun, t.schedule))
  }

  /** A job from the nine fields of its line. */
  function ParseFields(fields: seq<string>): Result<Job> {
    if |fields| != 9 || fields[0] != "job" then Err("sc.cron_job_store.field_count")
    else
      var scalars := ParseScalars(fields[1], fields[2], fields[3], fields[4]);
      if scalars.Err? then Err(scalars.code)
      else
        var texts := ParseTexts(fields[5], fields[6], fields[7], fields[8]);
        if texts.Err? then Err(texts.code) else MakeJob(scalars.value, texts.value)
  }

  function ParseJobLine(line: string): Result<Job> {
    if line == [] then Err("sc.cron_job_store.line_invalid") else ParseFields(SplitOn(line, '|'))
  }

  /** The line of a job, spelled out for texts without anything to escape. */
  lemma LineSpelled(job: Job)
    requires Escape(job.id) == job.id && Escape(job.target) == job.target && Escape(job.command) == job.command
    requires Escape(job.scheduleText) == job.scheduleText != []
    ensures JobLine(job) ==
            "job" + ['|'] + ((if job.kind == Shell then "shell" else "agent") + ['|']
            + ((if job.enabled then "true" else "false") + ['|'] + ((if job.once then "true" else "false") + ['|']
            + (FormatInt(job.lastRun) + ['|'] + (job.id + ['|'] + (job.scheduleText + ['|']
            + (job.target + ['|'] + job.command)))))))
  {
    hide Escape, FormatInt;
    JobLineUnfold(job);
  }

  /** A line is read exactly when it has nine readable fields; what each of them sets; the key of what is not. */
  lemma LineRead(line: string)
    ensures line == [] ==> ParseJobLine(line) == Err("sc.cron_job_store.line_invalid")
    ensures var f := SplitOn(line, '|'); var r := ParseJobLine(line);
            && (line != [] && (|f| != 9 || f[0] != "job") ==> r == Err("sc.cron_job_store.field_count"))
            && (line != [] && |f| == 9 && f[0] == "job" ==>
                 && (f[1] !in {"agent", "shell"} ==> r == Err("sc.cron_job_store.kind_invalid"))
                 && (f[1] in {"agent", "shell"} && !ScalarsReadable(f) ==> r == Err("sc.cron_job_store.scalar_invalid"))
                 && (r.Ok? <==> f[1] in {"agent", "shell"} && ScalarsReadable(f) && TextsReadable(f)))
            && (r.Ok? ==> |f| == 9 && Sets(f, r.value))
  {
    hide SplitOn, Unescape, ParseInt64, ParseSchedule;
  }

  predicate ScalarsReadable(f: seq<string>)
    requires |f| == 9
  {
    f[2] in {"true", "false"} && f[3] in {"true", "false"} && ParseInt64(f[4]).Some?
  }

  predicate TextsReadable(f: seq<string>)
    requires |f| == 9
  {
    && Unescape(f[5]).Ok? && Unescape(f[6]).Ok? && Unescape(f[7]).Ok? && Unescape(f[8]).Ok?
    && ParseSchedule(Unescape(f[6]).value).Ok?
  }

  /** The job is what the nine fields say, and nobody has asked to cancel it. */
  predicate Sets(f: seq<string>, job: Job)
    requires |f| == 9
  {
    && (job.kind == Shell <==> f[1] == "shell") && (job.enabled <==> f[2] == "true") && (job.once <==> f[3] == "true")
    && ParseInt64(f[4]) == Some(job.lastRun) && Unescape(f[5]) == Ok(job.id) && Unescape(f[6]) == Ok(job.scheduleText)
    && Unescape(f[7]) == Ok(job.target) && Unescape(f[8]) == Ok(job.command)
    && ParseSchedule(job.scheduleText) == Ok(job.schedule) && !job.cancelRequested
  }

  /** What a saved job reads back as: its schedule re-parsed from its text, its cancel flag gone. */
  function Reread(job: Job): Result<Job> {
    var schedule := ParseSchedule(SavedText(job));
    if schedule.Err? then Err(schedule.code)
    else Ok(job.(schedule := schedule.value, scheduleText := SavedText(job), cancelRequested := false))
  }

  /** A job saved without a text of its own keeps a parsed schedule: it only gains the text. */
  lemma TextlessJob(job: Job, source: string)
    requires ParseSchedule(source) == Ok(job.schedule) && '\0' !in source && job.scheduleText == []
    ensures Reread(job) == Ok(job.(scheduleText := job.schedule.expression, cancelRequested := false))
  {
    hide ParseSchedule;
    ParsedReads(source, job.schedule);
  }

  predicate NoBars(fields: seq<string>) {
    forall i :: 0 <= i < |fields| ==> '|' !in fields[i]
  }

  lemma {:induction false} SplitJoin(fields: seq<string>)
    requires fields != [] && NoBars(fields)
    ensures SplitOn(JoinBars(fields), '|') == fields
  {
    if |fields| == 1 {
      SplitOnWhole(fields[0], '|');
    } else {
      SplitJoin(fields[1..]);
      SplitOnConcat(fields[0], '|', JoinBars(fields[1..]));
      assert fields == [fields[0]] + fields[1..];
    }
  }

  /** Free of separators and of every control character. */
  predicate Plain(s: string) {
    forall i :: 0 <= i < |s| ==> s[i] >= ' ' && s[i] != '|'
  }

  lemma EscapedIsPlain(s: string)
    ensures Plain(Escape(s))
  {
    EscapeIsPlain(s);
  }

  lemma JobFieldsPlain(job: Job)
    ensures forall i :: 0 <= i < |JobFields(job)| ==> Plain(JobFields(job)[i])
  {
    hide FormatInt, Escape, SavedText, NeedsEscape;
    FormatIntPlain(job.lastRun);
    EscapedIsPlain(job.id);
    EscapedIsPlain(SavedText(job));
    EscapedIsPlain(job.target);
    EscapedIsPlain(job.command);
    assert Plain("job") && Plain("shell") && Plain("agent") && Plain("true") && Plain("false");
    assert Plain(FormatInt(job.lastRun)) && Plain(Escape(job.id)) && Plain(Escape(SavedText(job)))
        && Plain(Escape(job.target)) && Plain(Escape(job.command));
  }

  lemma JobLineSplits(job: Job)
    ensures SplitOn(JobLine(job), '|') == JobFields(job)
  {
    JobFieldsPlain(job);
    var fields := JobFields(job);
    assert forall i :: 0 <= i < |fields| ==> Plain(fields[i]);
    SplitJoin(fields);
  }

  lemma Int64RoundTrip(v: int64)
    ensures ParseInt64(FormatInt(v)) == Some(v)
  {
    FormatIntPlain(v);
    CStrWithoutNul(FormatInt(v));
    ScanFormatInt(v);
  }

  lemma ScalarsReread(job: Job)
    ensures ParseScalars(KindName(job.kind), FormatBool(job.enabled), FormatBool(job.once), FormatInt(job.lastRun))
            == Ok(Scalars(job.kind, job.enabled, job.once, job.lastRun))
  {
    Int64RoundTrip(job.lastRun);
  }

  lemma JobFieldsReread(job: Job)
    ensures ParseFields(JobFields(job)) == Reread(job)
  {
    ScalarsReread(job);
    UnescapeEscape(job.id);
    UnescapeEscape(SavedText(job));
    UnescapeEscape(job.target);
    UnescapeEscape(job.command);
  }

  /** Writing a job as a line and parsing the line gives the job as re-read. */
  lemma JobLineRoundTrip(job: Job)
    ensures ParseJobLine(JobLine(job)) == Reread(job)
  {
    JobLineSplits(job);
    JobFieldsReread(job);
    SplitOnWhole([], '|');
  }

  // ---- The vector of jobs ----------------------------------------------------------------------

  /** Position of the job with this id, or the length when there is none. */
  function FindIndex(jobs: seq<Job>, id: string): (k: nat)
    ensures k <= |jobs|
    ensures k < |jobs| ==> jobs[k].id == id
    ensures forall i :: 0 <= i < k ==> jobs[i].id != id
  {
    FirstWhere(jobs, (job: Job) => job.id == id)
  }

  function PutJob(jobs: seq<Job>, job: Job): seq<Job> {
    var k := FindIndex(jobs, job.id);
    if k < |jobs| then jobs[k := job] else jobs + [job]
  }

  function RemoveJob(jobs: seq<Job>, id: string): seq<Job> {
    var k := FindIndex(jobs, id);
    if k < |jobs| then jobs[..k] + jobs[k + 1..] else jobs
  }

  predicate DistinctIds(jobs: seq<Job>) {
    forall i, j :: 0 <= i < j < |jobs| ==> jobs[i].id != jobs[j].id
  }

  /** Putting keeps ids distinct, and the job is found again. */
  lemma PutKeepsIds(jobs: seq<Job>, job: Job)
    requires DistinctIds(jobs)
    ensures DistinctIds(PutJob(jobs, job))
    ensures FindIndex(PutJob(jobs, job), job.id) == FindIndex(jobs, job.id) < |PutJob(jobs, job)|
    ensures PutJob(jobs, job)[FindIndex(jobs, job.id)] == job
  {
    var k, after := FindIndex(jobs, job.id), PutJob(jobs, job);
    assert after[k].id == job.id;
    assert forall i :: 0 <= i < k ==> after[i].id == jobs[i].id;
  }

  /** Removing undoes the put of a new id and nothing else. */
  lemma RemoveUndoesPut(jobs: seq<Job>, job: Job)
    requires DistinctIds(jobs) && FindIndex(jobs, job.id) == |jobs|
    ensures RemoveJob(PutJob(jobs, job), job.id) == jobs
  {
    PutKeepsIds(jobs, job);
  }

  lemma FindAt(front: seq<Job>, job: Job, back: seq<Job>, id: string)
    requires DistinctIds(front + [job] + back) && job.id == id
    ensures FindIndex(front + [job] + back, id) == |front|
  {
    var all := front + [job] + back;
    var k := FindIndex(all, id);
    assert all[|front|] == job;
  }

  /** Removing takes out the job of that id and leaves every other in its place; an absent id changes
      nothing. */
  lemma RemoveTakesOne(front: seq<Job>, job: Job, back: seq<Job>, id: string)
    requires DistinctIds(front + [job] + back)
    ensures RemoveJob(front + [job] + back, job.id) == front + back
    ensures (forall i :: 0 <= i < |front| ==> front[i].id != id) ==> RemoveJob(front, id) == front
  {
    hide FindIndex;
    FindAt(front, job, back, job.id);
  }

  /** Putting under an id in the store replaces its job and leaves every other in its place; under a
      new id it appends. */
  lemma PutReplacesOne(front: seq<Job>, was: Job, back: seq<Job>, job: Job)
    requires DistinctIds(front + [was] + back)
    ensures was.id == job.id ==> PutJob(front + [was] + back, job) == front + [job] + back
    ensures (forall i :: 0 <= i < |front| ==> front[i].id != job.id) ==> PutJob(front, job) == front + [job]
  {
    hide FindIndex;
    if was.id == job.id {
      FindAt(front, was, back, job.id);
    }
  }

  // ---- The whole file --------------------------------------------------------------------------

  /** The jobs in the store after a load, and the error key if it failed part-way. */
  datatype Loaded = Loaded(jobs: seq<Job>, error: Option<string>)

  function SaveLines(jobs: seq<Job>): string {
    if jobs == [] then [] else JobLine(jobs[0]) + ['\n'] + SaveLines(jobs[1..])
  }

  function SaveBody(jobs: seq<Job>): string {
    HEADER + ['\n'] + SaveLines(jobs)
  }

  function StripCr(line: string): string {
    if line != [] && line[|line| - 1] == '\r' then line[..|line| - 1] else line
  }

  function FirstLine(body: string): string {
    StripCr(body[..IndexOf(body, '\n')])
  }

  function LaterLines(body: string): string {
    var k := IndexOf(body, '\n');
    if k < |body| then body[k + 1..] else []
  }

  function AddJob(jobs: seq<Job>, job: Result<Job>): Loaded {
    if job.Err? then Loaded(jobs, Some(job.code))
    else if job.value.id == [] then Loaded(jobs, Some("sc.cron_job_store.invalid_argument"))
    else Loaded(PutJob(jobs, job.value), None)
  }

  function ParseLines(jobs: seq<Job>, body: string): Loaded
    decreases |body|
  {
    if body == [] then Loaded(jobs, None)
    else if FirstLine(body) == [] then ParseLines(jobs, LaterLines(body))
    else
      var r := AddJob(jobs, ParseJobLine(FirstLine(body)));
      if r.error.Some? then r else ParseLines(r.jobs, LaterLines(body))
  }

  function ParseBody(jobs: seq<Job>, body: string): Loaded {
    if body == [] then Loaded(jobs, None)
    else if FirstLine(body) != HEADER then Loaded(jobs, Some("sc.cron_job_store.header_invalid"))
    else ParseLines(jobs, LaterLines(body))
  }

  function LoadBody(jobs: seq<Job>, body: string): Loaded {
    if |body| > MAX_BYTES then Loaded(jobs, Some("sc.cron_job_store.file_too_large"))
    else ParseBody(jobs, body)
  }

  /** Adding a run of parsed lines, stopping at the first that fails. */
  function AddAll(jobs: seq<Job>, lines: seq<Result<Job>>): Loaded
    decreases |lines|
  {
    if lines == [] then Loaded(jobs, None)
    else
      var r := AddJob(jobs, lines[0]);
      if r.error.Some? then r else AddAll(r.jobs, lines[1..])
  }

  function RereadAll(saved: seq<Job>): (r: seq<Result<Job>>)
    ensures |r| == |saved| && forall i :: 0 <= i < |r| ==> r[i] == Reread(saved[i])
  {
    seq(|saved|, i requires 0 <= i < |saved| => Reread(saved[i]))
  }

  predicate Printable(s: string) {
    forall i :: 0 <= i < |s| ==> s[i] >= ' '
  }

  lemma FirstLineOf(line: string, rest: string)
    requires Printable(line)
    ensures FirstLine(line + ['\n'] + rest) == line && LaterLines(line + ['\n'] + rest) == rest
  {
    IndexOfConcat(line, '\n', rest);
  }

  lemma {:induction false} JoinBarsPrintable(fields: seq<string>)
    requires fields != [] && forall i :: 0 <= i < |fields| ==> Plain(fields[i])
    ensures Printable(JoinBars(fields)) && |fields[0]| <= |JoinBars(fields)|
  {
    assert Plain(fields[0]);
    if |fields| > 1 {
      JoinBarsPrintable(fields[1..]);
    }
  }

  lemma JobLineIsFirst(job: Job, rest: string)
    ensures JobLine(job) != []
    ensures FirstLine(JobLine(job) + ['\n'] + rest) == JobLine(job)
    ensures LaterLines(JobLine(job) + ['\n'] + rest) == rest
  {
    hide Plain, Printable, FirstLine, LaterLines, JoinBars, Escape, FormatInt;
    JobFieldsPlain(job);
    assert JobFields(job)[0] == "job";
    JoinBarsPrintable(JobFields(job));
    FirstLineOf(JobLine(job), rest);
  }

  lemma {:induction false} ParseSavedLines(jobs: seq<Job>, saved: seq<Job>)
    ensures ParseLines(jobs, SaveLines(saved)) == AddAll(jobs, RereadAll(saved))
    decreases |saved|
  {
    hide ParseJobLine, Reread, JobLine, FirstLine, LaterLines, PutJob;
    if saved != [] {
      JobLineIsFirst(saved[0], SaveLines(saved[1..]));
      JobLineRoundTrip(saved[0]);
      assert RereadAll(saved)[1..] == RereadAll(saved[1..]);
      var r := AddJob(jobs, Reread(saved[0]));
      if r.error.None? {
        ParseSavedLines(r.jobs, saved[1..]);
      }
    }
  }

  lemma HeaderIsPrintable()
    ensures Printable(HEADER)
  {
    var h := HEADER;
    forall i | 0 <= i < |h|
      ensures h[i] >= ' '
    {
    }
  }

  /** Loading a saved store, into any store, adds exactly the saved jobs as re-read, in order. */
  lemma LoadOfSave(jobs: seq<Job>, saved: seq<Job>)
    requires |SaveBody(saved)| <= MAX_BYTES
    ensures LoadBody(jobs, SaveBody(saved)) == AddAll(jobs, RereadAll(saved))
  {
    HeaderIsPrintable();
    FirstLineOf(HEADER, SaveLines(saved));
    ParseSavedLines(jobs, saved);
  }

  /** Loading a saved store into another: jobs of new ids come after those already there. */
  lemma LoadAppends(jobs: seq<Job>, saved: seq<Job>)
    requires |SaveBody(saved)| <= MAX_BYTES && DistinctIds(jobs + saved)
    requires forall i :: 0 <= i < |saved| ==> Storable(saved[i])
    ensures LoadBody(jobs, SaveBody(saved)) == Loaded(jobs + saved, None)
  {
    hide SaveBody, AddAll, LoadBody, Storable;
    LoadOfSave(jobs, saved);
    AllStorable(saved);
    assert DistinctIds(jobs) by {
      assert forall i :: 0 <= i < |jobs| ==> (jobs + saved)[i] == jobs[i];
    }
    AddAllShape(jobs, RereadAll(saved));
  }

  /** A line may end in a carriage return, and an empty line is skipped. */
  lemma LineEnds(jobs: seq<Job>, line: string, rest: string)
    requires Printable(line)
    ensures FirstLine(line + ['\r'] + ['\n'] + rest) == line && LaterLines(line + ['\r'] + ['\n'] + rest) == rest
    ensures ParseLines(jobs, ['\n'] + rest) == ParseLines(jobs, ['\r', '\n'] + rest) == ParseLines(jobs, rest)
  {
    IndexOfConcat(line + ['\r'], '\n', rest);
    IndexOfConcat([], '\n', rest);
    IndexOfConcat(['\r'], '\n', rest);
    assert [] + ['\n'] + rest == ['\n'] + rest;
    assert ['\r'] + ['\n'] + rest == ['\r', '\n'] + rest;
  }

  /** A body that starts with another line than the header is refused, and the store left alone. */
  lemma HeaderIsRequired(jobs: seq<Job>, line: string, rest: string)
    requires Printable(line) && line != "sc-cron-jobs-v1"
    ensures ParseBody(jobs, line + ['\n'] + rest) == Loaded(jobs, Some("sc.cron_job_store.header_invalid"))
  {
    FirstLineOf(line, rest);
  }

  /** A job without an id, and a body over one mebibyte, are refused. */
  lemma LoadRefused(jobs: seq<Job>, line: string, rest: string, body: string)
    requires Printable(line) && line != [] && ParseJobLine(line).Ok? && ParseJobLine(line).value.id == []
    ensures ParseLines(jobs, line + ['\n'] + rest) == Loaded(jobs, Some("sc.cron_job_store.invalid_argument"))
    ensures |body| > 1_048_576 ==> LoadBody(jobs, body) == Loaded(jobs, Some("sc.cron_job_store.file_too_large"))
  {
    hide ParseJobLine;
    FirstLineOf(line, rest);
  }

  // ---- When a save and a load into an empty store give the store back ---------------------------

  /** Nothing in the job is lost by the file format. */
  predicate Storable(job: Job) {
    && job.id != [] && !job.cancelRequested && job.scheduleText != []
    && ParseSchedule(job.scheduleText) == Ok(job.schedule)
  }

  lemma StorableIffReread(job: Job)
    ensures Storable(job) <==> (Reread(job) == Ok(job) && job.id != [])
  {
  }

  predicate AllRead(lines: seq<Result<Job>>) {
    forall i :: 0 <= i < |lines| ==> lines[i].Ok? && lines[i].value.id != []
  }

  function Values(lines: seq<Result<Job>>): (r: seq<Job>)
    requires AllRead(lines)
    ensures |r| == |lines| && forall i :: 0 <= i < |r| ==> r[i] == lines[i].value
  {
    seq(|lines|, i requires 0 <= i < |lines| => lines[i].value)
  }

  lemma PutSize(jobs: seq<Job>, job: Job)
    ensures |jobs| <= |PutJob(jobs, job)| <= |jobs| + 1
  {
  }

  lemma PutNew(jobs: seq<Job>, job: Job, later: seq<Job>)
    ensures |PutJob(jobs, job)| == |jobs| + 1 ==> PutJob(jobs, job) + later == jobs + ([job] + later)
    ensures DistinctIds(jobs + ([job] + later)) ==> |PutJob(jobs, job)| == |jobs| + 1
  {
    var k := FindIndex(jobs, job.id);
    var all := jobs + ([job] + later);
    assert all[|jobs|] == job;
    assert k < |jobs| ==> all[k] == jobs[k];
  }

  lemma AllReadTail(lines: seq<Result<Job>>)
    requires lines != [] && lines[0].Ok? && lines[0].value.id != []
    ensures AllRead(lines) <==> AllRead(lines[1..])
    ensures AllRead(lines) ==> Values(lines) == [lines[0].value] + Values(lines[1..])
  {
    assert AllRead(lines[1..]) ==> forall i :: 0 < i < |lines| ==> lines[i] == lines[1..][i - 1];
  }

  /** A load that ends with one more job per line met every id for the first time. */
  lemma {:induction false} AddAllShape(jobs: seq<Job>, lines: seq<Result<Job>>)
    requires DistinctIds(jobs)
    ensures var r := AddAll(jobs, lines);
            && |r.jobs| <= |jobs| + |lines|
            && (r.error.None? ==> AllRead(lines))
            && (r.error.None? && |r.jobs| == |jobs| + |lines| ==>
                  r.jobs == jobs + Values(lines) && DistinctIds(jobs + Values(lines)))
    ensures AllRead(lines) && DistinctIds(jobs + Values(lines)) ==>
              AddAll(jobs, lines) == Loaded(jobs + Values(lines), None)
    decreases |lines|
  {
    if lines == [] {
      assert jobs + Values(lines) == jobs;
    } else {
      var r := AddJob(jobs, lines[0]);
      if r.error.None? {
        PutKeepsIds(jobs, lines[0].value);
        PutSize(jobs, lines[0].value);
        AddAllShape(r.jobs, lines[1..]);
        AllReadTail(lines);
        if AllRead(lines) {
          PutNew(jobs, lines[0].value, Values(lines[1..]));
        }
      }
    }
  }

  lemma AddAllToEmpty(lines: seq<Result<Job>>, jobs: seq<Job>)
    requires |lines| == |jobs|
    ensures AddAll([], lines) == Loaded(jobs, None)
            <==> (AllRead(lines) && Values(lines) == jobs && DistinctIds(jobs))
  {
    hide AddAll;
    AddAllShape([], lines);
    if AllRead(lines) {
      assert [] + Values(lines) == Values(lines);
    }
  }

  /** Saving and loading gives back the same jobs in the same order exactly for these stores. */
  lemma SaveThenLoad(jobs: seq<Job>)
    ensures LoadBody([], SaveBody(jobs)) == Loaded(jobs, None)
            <==> (|SaveBody(jobs)| <= MAX_BYTES && DistinctIds(jobs)
                  && forall i :: 0 <= i < |jobs| ==> Storable(jobs[i]))
  {
    hide SaveBody, Storable, AddAll, ParseBody, AllRead, DistinctIds, RereadAll, Values;
    if |SaveBody(jobs)| <= MAX_BYTES {
      LoadOfSave([], jobs);
      AddAllToEmpty(RereadAll(jobs), jobs);
      AllStorable(jobs);
    }
  }

  lemma AllStorable(jobs: seq<Job>)
    ensures (forall i :: 0 <= i < |jobs| ==> Storable(jobs[i]))
            <==> (AllRead(RereadAll(jobs)) && Values(RereadAll(jobs)) == jobs)
  {
    forall i | 0 <= i < |jobs|
      ensures Storable(jobs[i]) <==> (RereadAll(jobs)[i] == Ok(jobs[i]) && jobs[i].id != [])
    {
      StorableIffReread(jobs[i]);
    }
  }

  /** `fields` are the pieces of `line` before `start`. */
  predicate SplitUpTo(line: string, fields: seq<string>, start: nat)
    requires start <= |line|
  {
    fields + SplitOn(line[start..], '|') == SplitOn(line, '|')
  }

  lemma SplitStep(line: string, fields: seq<string>, start: nat, i: nat)
    requires start <= i <= |line| && '|' !in line[start..i] && (i < |line| ==> line[i] == '|')
    requires SplitUpTo(line, fields, start)
    ensures i == |line| ==> fields + [line[start..i]] == SplitOn(line, '|')
    ensures i < |line| ==> SplitUpTo(line, fields + [line[start..i]], i + 1)
  {
    SplitTail(line, start, i);
    if i < |line| {
      var piece := line[start..i];
      assert fields + ([piece] + SplitOn(line[i + 1..], '|')) == (fields + [piece]) + SplitOn(line[i + 1..], '|');
    }
  }

  lemma SplitTail(line: string, start: nat, i: nat)
    requires start <= i <= |line| && '|' !in line[start..i] && (i < |line| ==> line[i] == '|')
    ensures SplitOn(line[start..], '|') ==
            if i == |line| then [line[start..i]] else [line[start..i]] + SplitOn(line[i + 1..], '|')
  {
    var piece := line[start..i];
    if i < |line| {
      assert line[start..] == piece + ['|'] + line[i + 1..];
      SplitOnConcat(piece, '|', line[i + 1..]);
    } else {
      assert line[start..] == piece;
      SplitOnWhole(piece, '|');
    }
  }

  lemma SplitStart(line: string)
    ensures SplitUpTo(line, [], 0)
  {
    assert line[0..] == line;
    assert [] + SplitOn(line, '|') == SplitOn(line, '|');
  }

  /** The pieces of a line between bars; past nine of them it gives up, with ten. */
  method SplitFields(line: string) returns (fields: seq<string>)
    ensures fields == SplitOn(line, '|') || (|fields| == 10 && |SplitOn(line, '|')| >= 10)
  {
    fields := [];
    var start, i := 0, 0;
    SplitStart(line);
    hide *;
    while i <= |line|
      invariant start <= i <= |line| + 1 && |fields| <= 9
      invariant i <= |line| ==> '|' !in line[start..i] && SplitUpTo(line, fields, start)
      invariant i == |line| + 1 ==> fields == SplitOn(line, '|')
    {
      if i == |line| || line[i] == '|' {
        SplitStep(line, fields, start, i);
        fields := fields + [line[start..i]];
        start := i + 1;
        if |fields| == 10 {
          return;
        }
      }
      i := i + 1;
    }
  }

  method LineEnd(body: string, start: nat) returns (end: nat)
    requires start <= |body|
    ensures start <= end <= |body| && '\n' !in body[start..end]
    ensures end < |body| ==> body[end] == '\n'
  {
    end := start;
    while end < |body| && body[end] != '\n'
      invariant start <= end <= |body| && '\n' !in body[start..end]
    {
      end := end + 1;
    }
  }

  method WriteLine(job: Job) returns (line: string)
    ensures line == JobLine(job)
  {
    var id := WriteEscaped(job.id);
    var text := WriteEscaped(SavedText(job));
    var target := WriteEscaped(job.target);
    var command := WriteEscaped(job.command);
    line := "job" + ['|'] + (KindName(job.kind) + ['|'] + (FormatBool(job.enabled) + ['|']
      + (FormatBool(job.once) + ['|'] + (FormatInt(job.lastRun) + ['|'] + (id + ['|']
      + (text + ['|'] + (target + ['|'] + command)))))));
    JobLineUnfold(job);
  }

  lemma JobLineUnfold(job: Job)
    ensures var f := JobFields(job);
            JobLine(job) == f[0] + ['|'] + (f[1] + ['|'] + (f[2] + ['|'] + (f[3] + ['|'] + (f[4] + ['|']
                            + (f[5] + ['|'] + (f[6] + ['|'] + (f[7] + ['|'] + f[8])))))))
  {
    var f := JobFields(job);
    forall k | 0 <= k < 8
      ensures JoinBars(f[k..]) == f[k] + ['|'] + JoinBars(f[k + 1..])
    {
      assert f[k..][1..] == f[k + 1..];
    }
    assert f[0..] == f && JoinBars(f[8..]) == f[8];
  }

  lemma SaveStep(jobs: seq<Job>, i: nat, body: string, line: string)
    requires i < |jobs| && line == JobLine(jobs[i])
    ensures body + SaveLines(jobs[i..]) == (body + (line + ['\n'])) + SaveLines(jobs[i + 1..])
  {
    assert jobs[i..][1..] == jobs[i + 1..];
    assert body + ((line + ['\n']) + SaveLines(jobs[i + 1..])) == (body + (line + ['\n'])) + SaveLines(jobs[i + 1..]);
  }

  class JobStore {
    var jobs: seq<Job>

    constructor ()
      ensures jobs == []
    {
      jobs := [];
    }

    method Put(job: Job) returns (error: Option<string>)
      modifies this
      ensures Loaded(jobs, error) == AddJob(old(jobs), Ok(job))
    {
      if job.id == [] {
        return Some("sc.cron_job_store.invalid_argument");
      }
      var i := 0;
      while i < |jobs|
        invariant i <= |jobs| && jobs == old(jobs)
        invariant forall j :: 0 <= j < i ==> jobs[j].id != job.id
      {
        if jobs[i].id == job.id {
          jobs := jobs[i := job];
          return None;
        }
        i := i + 1;
      }
      jobs := jobs + [job];
      return None;
    }

    method Find(id: string) returns (k: nat)
      ensures k == FindIndex(jobs, id)
    {
      k := 0;
      while k < |jobs|
        invariant k <= |jobs|
        invariant forall j :: 0 <= j < k ==> jobs[j].id != id
      {
        if jobs[k].id == id {
          return;
        }
        k := k + 1;
      }
    }

    method Remove(id: string) returns (error: Option<string>)
      modifies this
      ensures jobs == if id == [] then old(jobs) else RemoveJob(old(jobs), id)
      ensures error.None? <==> id != [] && FindIndex(old(jobs), id) < |old(jobs)|
    {
      if id == [] {
        return Some("sc.cron_job_store.remove_invalid_argument");
      }
      var i := Find(id);
      if i == |jobs| {
        return Some("sc.cron_job_store.not_found");
      }
      jobs := jobs[..i] + jobs[i + 1..];
      return None;
    }

    method Save() returns (body: string)
      ensures body == SaveBody(jobs)
    {
      body := HEADER + ['\n'];
      var i := 0;
      assert jobs[0..] == jobs;
      while i < |jobs|
        invariant i <= |jobs|
        invariant body + SaveLines(jobs[i..]) == SaveBody(jobs)
      {
        var line := WriteLine(jobs[i]);
        SaveStep(jobs, i, body, line);
        body := body + (line + ['\n']);
        i := i + 1;
      }
    }

    /** Parses a line and adds its job. */
    method ParseLine(line: string) returns (error: Option<string>)
      modifies this
      ensures Loaded(jobs, error) == AddJob(old(jobs), ParseJobLine(line))
    {
      if line == [] {
        return Some("sc.cron_job_store.line_invalid");
      }
      var fields := SplitFields(line);
      var job := ParseFields(fields);
      if job.Err? {
        return Some(job.code);
      }
      error := Put(job.value);
    }

    /** Parses a file body line by line, adding each job as it is read. */
    method Parse(body: string) returns (error: Option<string>)
      modifies this
      ensures Loaded(jobs, error) == ParseBody(old(jobs), body)
    {
      hide *;
      var offset, lineIndex := 0, 0;
      ghost var expected := ParseBody(jobs, body);
      ghost var before := jobs;
      while offset < |body|
        invariant offset <= |body|
        invariant lineIndex == 0 ==> offset == 0 && jobs == before
        invariant lineIndex > 0 ==> ParseLines(jobs, body[offset..]) == expected
      {
        var start := offset;
        offset := LineEnd(body, start);
        var line := StripCr(body[start..offset]);
        BodyStep(before, jobs, body, start, offset);
        if offset < |body| {
          offset := offset + 1;
        }
        if lineIndex == 0 {
          if line != HEADER {
            return Some("sc.cron_job_store.header_invalid");
          }
        } else if line != [] {
          error := ParseLine(line);
          if error.Some? {
            return;
          }
        }
        lineIndex := lineIndex + 1;
      }
      assert body[|body|..] == [];
      EmptyBody(jobs);
      return None;
    }

    method Load(body: string) returns (error: Option<string>)
      modifies this
      ensures Loaded(jobs, error) == LoadBody(old(jobs), body)
    {
      if |body| > MAX_BYTES {
        return Some("sc.cron_job_store.file_too_large");
      }
      error := Parse(body);
    }
  }

  lemma LineAt(body: string, start: nat, offset: nat)
    requires start < |body| && start <= offset <= |body| && '\n' !in body[start..offset]
    requires offset < |body| ==> body[offset] == '\n'
    ensures FirstLine(body[start..]) == StripCr(body[start..offset])
    ensures LaterLines(body[start..]) == if offset < |body| then body[offset + 1..] else body[|body|..]
  {
    var tail := body[start..];
    assert tail[..offset - start] == body[start..offset];
    IndexOfUnique(tail, '\n', offset - start);
    if offset < |body| {
      assert tail[offset - start + 1..] == body[offset + 1..];
    }
  }

  lemma EmptyBody(jobs: seq<Job>)
    ensures ParseBody(jobs, []) == ParseLines(jobs, []) == Loaded(jobs, None)
  {
  }

  /** One line further into a body, before and after its header. */
  lemma BodyStep(before: seq<Job>, jobs: seq<Job>, body: string, start: nat, offset: nat)
    requires start < |body| && start <= offset <= |body| && '\n' !in body[start..offset]
    requires offset < |body| ==> body[offset] == '\n'
    ensures var line := StripCr(body[start..offset]);
            var rest := if offset < |body| then body[offset + 1..] else body[|body|..];
            && (start == 0 ==> (ParseBody(before, body) ==
                  (if line != HEADER then Loaded(before, Some("sc.cron_job_store.header_invalid"))
                   else ParseLines(before, rest))))
            && ParseLines(jobs, body[start..]) ==
                  if line == [] then ParseLines(jobs, rest)
                  else var r := AddJob(jobs, ParseJobLine(line));
                       if r.error.Some? then r else ParseLines(r.jobs, rest)
  {
    LineAt(body, start, offset);
    assert start == 0 ==> body[start..] == body;
  }
}
