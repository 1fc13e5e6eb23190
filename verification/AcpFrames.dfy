/** The `session/update` frames of the ACP server: one JSON object a line, printed byte by byte, and
    read back by a reader of section 7 of RFC 8259. */
module AcpFrames {
  import opened Text

  const OPENING: string := "{\"jsonrpc\":\"2.0\"," + "\"method\":\"session/update\"," + "\"params\":{"

  datatype Update = Update(sessionId: string, kind: string, name: string, text: string, finished: bool)

  // ---- The printer -----------------------------------------------------------------------------

  function EscapeChar(c: char): string {
    if c == '"' || c == '\\' then ['\\', c]
    else if c == '\n' then "\\n"
    else if c == '\r' then "\\r"
    else if c == '\t' then "\\t"
    else if c < ' ' then "\\u00" + [HexDigit(c as int / 16, 'a'), HexDigit(c as int % 16, 'a')]
    else [c]
  }

  function Escape(s: string): string {
    if s == [] then [] else EscapeChar(s[0]) + Escape(s[1..])
  }

  function Quoted(s: string): string {
    ['"'] + (Escape(s) + ['"'])
  }

  method AppendJsonString(builder: string, value: string) returns (out: string)
    ensures out == builder + Quoted(value)
  {
    out := builder + ['"'];
    var i := 0;
    assert value[0..] == value;
    while i < |value|
      invariant i <= |value|
      invariant out + Escape(value[i..]) == builder + (['"'] + Escape(value))
    {
      EscapeStep(out, value, i);
      out := out + EscapeChar(value[i]);
      i := i + 1;
    }
    assert out + [] == out;
    assert (builder + (['"'] + Escape(value))) + ['"'] == builder + (['"'] + (Escape(value) + ['"']));
    out := out + ['"'];
  }

  lemma EscapeStep(out: string, value: string, i: nat)
    requires i < |value|
    ensures out + Escape(value[i..]) == (out + EscapeChar(value[i])) + Escape(value[i + 1..])
  {
    assert value[i..][1..] == value[i + 1..];
    var escaped, rest := EscapeChar(value[i]), Escape(value[i + 1..]);
    assert out + (escaped + rest) == (out + escaped) + rest;
  }

  /** A member of the `params` object. */
  datatype Member = Text(name: string, text: string) | Flag(flagName: string, flag: bool)

  function Members(u: Update): seq<Member> {
    [Text("sessionId", u.sessionId), Text("kind", u.kind)]
    + (if u.name == [] then [] else [Text("name", u.name)])
    + (if u.text == [] then [] else [Text("text", u.text)])
    + [Flag("finished", u.finished)]
  }

  function PrintMember(m: Member): string {
    match m
    case Text(name, text) => Quoted(name) + ([':'] + Quoted(text))
    case Flag(name, flag) => Quoted(name) + ([':'] + (if flag then "true" else "false"))
  }

  function PrintMembers(ms: seq<Member>): string
    requires ms != []
  {
    if |ms| == 1 then PrintMember(ms[0]) else PrintMember(ms[0]) + ([','] + PrintMembers(ms[1..]))
  }

  /** A frame without its line break. */
  function Line(u: Update): string {
    OPENING + (PrintMembers(Members(u)) + "}}")
  }

  function Frame(u: Update): string {
    Line(u) + ['\n']
  }

  // ---- The reader ------------------------------------------------------------------------------

  /** A value and what follows it. */
  datatype Read<+T> = NotRead | Read(value: T, rest: string)

  /** The code unit of an escape; surrogates are not read. */
  function ReadUnicode(s: string): Read<char> {
    if |s| < 4 || exists i :: 0 <= i < 4 && HexValue(s[i]) < 0 then NotRead
    else
      var v := ((HexValue(s[0]) * 16 + HexValue(s[1])) * 16 + HexValue(s[2])) * 16 + HexValue(s[3]);
      if v < 0xD800 || 0xE000 <= v < 0x1_0000 then Read(v as char, s[4..]) else NotRead
  }

  /** One character of a string, escaped or not. */
  function ReadChar(s: string): Read<char> {
    if s == [] || s[0] < ' ' || s[0] == '"' then NotRead
    else if s[0] != '\\' then Read(s[0], s[1..])
    else if |s| < 2 then NotRead
    else if s[1] == '"' || s[1] == '\\' || s[1] == '/' then Read(s[1], s[2..])
    else if s[1] == 'b' then Read(8 as char, s[2..])
    else if s[1] == 'f' then Read(12 as char, s[2..])
    else if s[1] == 'n' then Read('\n', s[2..])
    else if s[1] == 'r' then Read('\r', s[2..])
    else if s[1] == 't' then Read('\t', s[2..])
    else if s[1] == 'u' then ReadUnicode(s[2..])
    else NotRead
  }

  lemma ReadCharShortens(s: string)
    ensures ReadChar(s).Read? ==> |ReadChar(s).rest| < |s|
  {
  }

  function ReadChars(s: string): Read<string>
    decreases |s|
  {
    if s != [] && s[0] == '"' then Read([], s[1..])
    else
      ReadCharShortens(s);
      match ReadChar(s)
      case NotRead => NotRead
      case Read(c, rest) =>
        match ReadChars(rest)
        case NotRead => NotRead
        case Read(cs, after) => Read([c] + cs, after)
  }

  function ReadString(s: string): Read<string> {
    if s == [] || s[0] != '"' then NotRead else ReadChars(s[1..])
  }

  function ReadMember(s: string): Read<Member> {
    match ReadString(s)
    case NotRead => NotRead
    case Read(name, rest) =>
      if rest == [] || rest[0] != ':' then NotRead
      else if rest[1..] != [] && rest[1] == '"' then
        (match ReadString(rest[1..])
         case NotRead => NotRead
         case Read(text, after) => Read(Text(name, text), after))
      else if |rest| >= 5 && rest[1..5] == "true" then Read(Flag(name, true), rest[5..])
      else if |rest| >= 6 && rest[1..6] == "false" then Read(Flag(name, false), rest[6..])
      else NotRead
  }

  /** Members separated by commas, up to the closing brace. */
  function ReadMembers(s: string, fuel: nat): Read<seq<Member>>
    decreases fuel
  {
    match ReadMember(s)
    case NotRead => NotRead
    case Read(m, rest) =>
      if rest == [] || fuel == 0 then NotRead
      else if rest[0] == '}' then Read([m], rest[1..])
      else if rest[0] != ',' then NotRead
      else match ReadMembers(rest[1..], fuel - 1)
        case NotRead => NotRead
        case Read(ms, after) => Read([m] + ms, after)
  }

  /** The members of a frame line. */
  function ReadLine(line: string): Option<seq<Member>> {
    if |line| < |OPENING| || line[..|OPENING|] != OPENING then None
    else match ReadMembers(line[|OPENING|..], |line|)
      case NotRead => None
      case Read(ms, rest) => if rest == "}" then Some(ms) else None
  }

  // ---- Reading back what was printed -----------------------------------------------------------

  lemma ControlReadsBack(c: char, rest: string)
    requires c < ' '
    ensures ReadUnicode("00" + [HexDigit(c as int / 16, 'a'), HexDigit(c as int % 16, 'a')] + rest) == Read(c, rest)
  {
    HexRoundTrip(c as int / 16, 'a');
    HexRoundTrip(c as int % 16, 'a');
    var s := "00" + [HexDigit(c as int / 16, 'a'), HexDigit(c as int % 16, 'a')] + rest;
    assert s[4..] == rest;
    assert c as int / 16 * 16 + c as int % 16 == c as int;
  }

  lemma CharReadsBack(c: char, rest: string)
    ensures EscapeChar(c) != [] && EscapeChar(c)[0] != '"' && EscapeChar(c)[0] >= ' '
    ensures ReadChar(EscapeChar(c) + rest) == Read(c, rest)
  {
    hide ReadUnicode, HexDigit;
    var s := EscapeChar(c) + rest;
    if |EscapeChar(c)| == 1 {
      assert s[1..] == rest;
    } else if |EscapeChar(c)| == 2 {
      assert s[2..] == rest;
    } else {
      ControlReadsBack(c, rest);
      assert s[2..] == "00" + [HexDigit(c as int / 16, 'a'), HexDigit(c as int % 16, 'a')] + rest;
    }
  }

  lemma ReadOne(c: char, tail: string)
    ensures ReadChars(EscapeChar(c) + tail) ==
            if ReadChars(tail).Read? then Read([c] + ReadChars(tail).value, ReadChars(tail).rest) else NotRead
  {
    hide EscapeChar, ReadChar;
    CharReadsBack(c, tail);
    assert (EscapeChar(c) + tail)[0] == EscapeChar(c)[0];
  }

  lemma ReadEnd(rest: string)
    ensures ReadChars(['"'] + rest) == Read([], rest)
  {
  }

  lemma {:induction false} CharsReadBack(s: string, rest: string)
    ensures ReadChars(Escape(s) + (['"'] + rest)) == Read(s, rest)
  {
    hide EscapeChar, ReadChars;
    if s == [] {
      ReadEnd(rest);
      assert Escape(s) + (['"'] + rest) == ['"'] + rest;
    } else {
      ReadOne(s[0], Escape(s[1..]) + (['"'] + rest));
      CharsReadBack(s[1..], rest);
      assert Escape(s) + (['"'] + rest) == EscapeChar(s[0]) + (Escape(s[1..]) + (['"'] + rest));
      assert [s[0]] + s[1..] == s;
    }
  }

  /** Any byte string, printed as a JSON string, reads back as itself. */
  lemma StringReadsBack(s: string, rest: string)
    ensures ReadString(Quoted(s) + rest) == Read(s, rest)
  {
    hide ReadChars, Escape;
    CharsReadBack(s, rest);
    assert Quoted(s) + rest == ['"'] + (Escape(s) + (['"'] + rest));
  }

  lemma TextReadsBack(name: string, text: string, rest: string)
    ensures ReadMember(PrintMember(Text(name, text)) + rest) == Read(Text(name, text), rest)
  {
    hide ReadString, Quoted;
    var value := Quoted(text) + rest;
    var tail := [':'] + value;
    assert PrintMember(Text(name, text)) + rest == Quoted(name) + tail;
    StringReadsBack(name, tail);
    StringReadsBack(text, rest);
    QuotedStarts(text, rest);
    assert tail[1..] == value && tail[1] == value[0];
  }

  lemma FlagReadsBack(name: string, flag: bool, rest: string)
    ensures ReadMember(PrintMember(Flag(name, flag)) + rest) == Read(Flag(name, flag), rest)
  {
    hide ReadString, Quoted;
    var word := if flag then "true" else "false";
    var tail := [':'] + (word + rest);
    assert PrintMember(Flag(name, flag)) + rest == Quoted(name) + tail;
    StringReadsBack(name, tail);
    assert tail[1] == word[0] && tail[1..|word| + 1] == word && tail[|word| + 1..] == rest;
    assert !flag ==> tail[1..5][0] == 'f';
  }

  lemma MemberReadsBack(m: Member, rest: string)
    ensures ReadMember(PrintMember(m) + rest) == Read(m, rest)
  {
    hide ReadMember, PrintMember;
    match m
    case Text(name, text) => TextReadsBack(name, text, rest);
    case Flag(name, flag) => FlagReadsBack(name, flag, rest);
  }

  lemma QuotedStarts(s: string, rest: string)
    ensures (Quoted(s) + rest) != [] && (Quoted(s) + rest)[0] == '"'
  {
  }

  lemma {:induction false} MembersReadBack(ms: seq<Member>, rest: string, fuel: nat)
    requires ms != [] && fuel >= |ms|
    ensures ReadMembers(PrintMembers(ms) + (['}'] + rest), fuel) == Read(ms, rest)
    decreases |ms|
  {
    hide ReadMember, PrintMember;
    if |ms| == 1 {
      MemberReadsBack(ms[0], ['}'] + rest);
      assert ms == [ms[0]];
    } else {
      var after := PrintMembers(ms[1..]) + (['}'] + rest);
      MemberReadsBack(ms[0], [','] + after);
      MembersReadBack(ms[1..], rest, fuel - 1);
      assert PrintMembers(ms) + (['}'] + rest) == PrintMember(ms[0]) + ([','] + after);
      assert ms == [ms[0]] + ms[1..];
    }
  }

  lemma {:induction false} PrintedLength(ms: seq<Member>)
    requires ms != []
    ensures |PrintMembers(ms)| >= |ms|
  {
    if |ms| > 1 {
      PrintedLength(ms[1..]);
    }
  }

  /** A printed line reads back as the members it was printed from. */
  lemma LineReadsBack(u: Update)
    ensures ReadLine(Line(u)) == Some(Members(u))
  {
    hide Members, PrintMembers, ReadMembers;
    var ms := Members(u);
    MembersNotEmpty(u);
    var line := Line(u);
    assert line[|OPENING|..] == PrintMembers(ms) + (['}'] + "}");
    PrintedLength(ms);
    MembersReadBack(ms, "}", |line|);
  }

  lemma MembersNotEmpty(u: Update)
    ensures Members(u) != []
  {
  }

  /** The update is determined by its members: an absent name or text stands for the empty one. */
  lemma MembersDetermineUpdate(u: Update, v: Update)
    requires Members(u) == Members(v)
    ensures u == v
  {
    var a, b := Members(u), Members(v);
    assert a[0] == b[0] && a[1] == b[1] && a[|a| - 1] == b[|b| - 1];
    assert |a| > 3 ==> a[2] == b[2];
    assert |a| > 4 ==> a[3] == b[3];
    assert "name" != "text" by { assert "name"[0] != "text"[0]; }
    assert u.name == [] <==> v.name == [];
  }

  // ---- Framing ---------------------------------------------------------------------------------

  function Stream(us: seq<Update>): string {
    if us == [] then [] else Frame(us[0]) + Stream(us[1..])
  }

  function Lines(us: seq<Update>): (r: seq<string>)
    ensures |r| == |us| && forall i :: 0 <= i < |us| ==> r[i] == Line(us[i])
  {
    seq(|us|, i requires 0 <= i < |us| => Line(us[i]))
  }

  lemma {:induction false} EscapeHasNoBreak(s: string)
    ensures '\n' !in Escape(s)
  {
    if s != [] {
      EscapeHasNoBreak(s[1..]);
    }
  }

  lemma QuotedHasNoBreak(s: string)
    ensures '\n' !in Quoted(s)
  {
    EscapeHasNoBreak(s);
  }

  lemma {:induction false} MembersHaveNoBreak(ms: seq<Member>)
    requires ms != []
    ensures '\n' !in PrintMembers(ms)
  {
    hide Quoted;
    match ms[0] {
      case Text(name, text) => QuotedHasNoBreak(name); QuotedHasNoBreak(text);
      case Flag(name, flag) => QuotedHasNoBreak(name);
    }
    if |ms| > 1 {
      MembersHaveNoBreak(ms[1..]);
    }
  }

  lemma OpeningHasNoBreak()
    ensures '\n' !in OPENING
  {
    assert '\n' !in "{\"jsonrpc\":\"2.0\",";
    assert '\n' !in "\"method\":\"session/update\",";
    assert '\n' !in "\"params\":{";
  }

  lemma LineHasNoBreak(u: Update)
    ensures '\n' !in Line(u)
  {
    hide Members, PrintMembers;
    MembersNotEmpty(u);
    MembersHaveNoBreak(Members(u));
    OpeningHasNoBreak();
  }

  /** A stream of frames splits at its line breaks into exactly the lines it was printed from, each
      of which reads back as its update. */
  lemma {:induction false} StreamSplits(us: seq<Update>)
    ensures SplitOn(Stream(us), '\n') == Lines(us) + [[]]
    ensures forall i :: 0 <= i < |us| ==> ReadLine(Lines(us)[i]) == Some(Members(us[i]))
  {
    hide Line, ReadLine, Members, SplitOn;
    if us == [] {
      SplitOnWhole([], '\n');
    } else {
      StreamSplits(us[1..]);
      LineHasNoBreak(us[0]);
      LineReadsBack(us[0]);
      SplitOnConcat(Line(us[0]), '\n', Stream(us[1..]));
      assert Lines(us) == [Line(us[0])] + Lines(us[1..]);
    }
  }

  // ---- Printing in place -----------------------------------------------------------------------

  method AppendField(builder: string, name: string, value: string, first: bool) returns (out: string)
    ensures out == builder + ((if first then "" else ",") + PrintMember(Text(name, value)))
  {
    hide *;
    FieldParts(builder, if first then "" else ",", name, value);
    out := builder + (if first then "" else ",");
    out := AppendJsonString(out, name);
    out := out + [':'];
    out := AppendJsonString(out, value);
  }

  lemma FieldParts(builder: string, separator: string, name: string, value: string)
    ensures (((builder + separator) + Quoted(name)) + [':']) + Quoted(value)
            == builder + (separator + PrintMember(Text(name, value)))
  {
    hide Quoted;
  }

  function Separated(ms: seq<Member>): string
    decreases |ms|
  {
    if ms == [] then []
    else Separated(ms[..|ms| - 1]) + ((if |ms| == 1 then "" else ",") + PrintMember(ms[|ms| - 1]))
  }

  lemma {:induction false} SeparatedFromStart(ms: seq<Member>)
    requires ms != []
    ensures Separated(ms) == PrintMembers(ms)
  {
    hide PrintMember;
    if |ms| == 1 {
      assert ms[..0] == [];
    } else {
      SeparatedTail(ms[0], ms[1..]);
      SeparatedFromStart(ms[1..]);
      assert ms == [ms[0]] + ms[1..];
    }
  }

  lemma {:induction false} SeparatedTail(m: Member, ms: seq<Member>)
    requires ms != []
    ensures Separated([m] + ms) == PrintMember(m) + ([','] + Separated(ms))
    decreases |ms|
  {
    hide PrintMember;
    var n := |ms| - 1;
    assert ([m] + ms)[..|[m] + ms| - 1] == [m] + ms[..n];
    if n == 0 {
      assert [m] + ms[..n] == [m] && [m][..0] == [];
      assert ms[..0] == [];
    } else {
      SeparatedTail(m, ms[..n]);
    }
  }

  lemma SeparatedPush(ms: seq<Member>, m: Member)
    ensures Separated(ms + [m]) == Separated(ms) + ((if ms == [] then "" else ",") + PrintMember(m))
  {
    assert (ms + [m])[..|ms|] == ms;
  }

  method EmitUpdate(builder: string, u: Update) returns (out: string)
    ensures out == builder + Frame(u)
  {
    hide Separated, PrintMember, PrintMembers;
    ghost var ms: seq<Member> := [];
    ghost var start := builder + OPENING;
    SeparatedNothing();
    out := AppendField(builder + OPENING, "sessionId", u.sessionId, true);
    SeparatedPush(ms, Text("sessionId", u.sessionId));
    ms := ms + [Text("sessionId", u.sessionId)];
    out := AppendField(out, "kind", u.kind, false);
    Extend(start, ms, Text("kind", u.kind), out);
    ms := ms + [Text("kind", u.kind)];
    if u.name != [] {
      out := AppendField(out, "name", u.name, false);
      Extend(start, ms, Text("name", u.name), out);
      ms := ms + [Text("name", u.name)];
    }
    if u.text != [] {
      out := AppendField(out, "text", u.text, false);
      Extend(start, ms, Text("text", u.text), out);
      ms := ms + [Text("text", u.text)];
    }
    out := out + "," + "\"finished\":" + (if u.finished then "true" else "false");
    FlagText("finished", u.finished);
    Extend(start, ms, Flag("finished", u.finished), out);
    assert ms + [Flag("finished", u.finished)] == Members(u);
    SeparatedFromStart(Members(u));
    out := out + "}}\n";
    FrameParts(builder, u);
  }

  lemma SeparatedNothing()
    ensures Separated([]) == []
  {
  }

  /** One more separated member behind a text that already holds the earlier ones. */
  lemma Extend(start: string, ms: seq<Member>, m: Member, out: string)
    requires ms != [] && out == (start + Separated(ms)) + ("," + PrintMember(m))
    ensures out == start + Separated(ms + [m])
  {
    hide Separated, PrintMember;
    SeparatedPush(ms, m);
  }

  lemma FlagText(name: string, flag: bool)
    requires name == "finished"
    ensures "," + "\"finished\":" + (if flag then "true" else "false") == "," + PrintMember(Flag(name, flag))
  {
    hide Quoted;
    var word := if flag then "true" else "false";
    QuotedFinished();
    assert "," + "\"finished\":" + word == "," + ("\"finished\"" + (":" + word));
  }

  lemma QuotedFinished()
    ensures Quoted("finished") == "\"finished\""
  {
    hide Escape;
    PlainEscape("finished");
  }

  lemma {:induction false} PlainEscape(s: string)
    requires forall i :: 0 <= i < |s| ==> EscapeChar(s[i]) == [s[i]]
    ensures Escape(s) == s
  {
    hide EscapeChar;
    if s != [] {
      PlainEscape(s[1..]);
    }
  }

  lemma FrameParts(builder: string, u: Update)
    ensures ((builder + OPENING) + PrintMembers(Members(u))) + "}}\n" == builder + Frame(u)
  {
    hide PrintMembers, Members;
  }

  // ---- The updates of one prompt ----------------------------------------------------------------

  datatype EventKind =
    | TextDelta | ToolCalled | ToolResult | ToolDenied | PromptBuilt | ProviderStarted | ProviderCalled | OtherEvent

  datatype Event = Event(kind: EventKind, name: string, message: string)

  /** How the agent answered: not configured, completed, cancelled, or failed otherwise. */
  datatype Turn =
    | NoAgent
    | Completed(events: seq<Event>, output: string)
    | Cancelled(events: seq<Event>, output: string)
    | Failed

  function EventUpdate(approvals: bool, session: string, e: Event): seq<Update> {
    match e.kind
    case TextDelta => [Update(session, "text", e.name, e.message, false)]
    case ToolCalled => [Update(session, "tool_call", e.name, e.message, false)]
    case ToolResult => [Update(session, "tool_result", e.name, e.message, false)]
    case ToolDenied => if approvals then [Update(session, "approval_request", e.name, e.message, false)] else []
    case OtherEvent => []
    case _ => [Update(session, "reasoning", e.name, e.message, false)]
  }

  function EventUpdates(approvals: bool, session: string, events: seq<Event>): seq<Update>
    decreases |events|
  {
    if events == [] then []
    else
      EventUpdates(approvals, session, events[..|events| - 1])
      + EventUpdate(approvals, session, events[|events| - 1])
  }

  predicate Has(events: seq<Event>, kind: EventKind) {
    exists i :: 0 <= i < |events| && events[i].kind == kind
  }

  function Final(session: string, output: string): Update {
    Update(session, "final", "assistant", output, true)
  }

  /** The turn waits for an approval and has nothing to say yet. */
  predicate Waiting(approvals: bool, events: seq<Event>, output: string) {
    approvals && Has(events, ToolDenied) && output == []
  }

  function ResultUpdates(approvals: bool, session: string, events: seq<Event>, output: string): seq<Update> {
    var us := EventUpdates(approvals, session, events);
    if Waiting(approvals, events, output) then us
    else
      us
      + (if Has(events, TextDelta) || output == [] then []
         else [Update(session, "text", "assistant", output, false)])
      + [Final(session, output)]
  }

  predicate ApprovalRequested(events: seq<Event>) {
    exists i :: 0 <= i < |events| && events[i].kind == ToolDenied && events[i].message == "sc.tool.approval_required"
  }

  /** The updates of a prompt to a known session. */
  function PromptUpdates(approvals: bool, session: string, prompt: string, turn: Turn): seq<Update> {
    [Update(session, "reasoning", "request", "accepted", false)] +
    match turn
    case NoAgent => [Update(session, "text", "assistant", prompt, false), Final(session, prompt)]
    case Completed(events, output) => ResultUpdates(approvals, session, events, output)
    case Cancelled(events, output) =>
      if ApprovalRequested(events) then ResultUpdates(approvals, session, events, output) else []
    case Failed => []
  }

  /** What the response says: an error, or whether the turn is finished. */
  datatype Response = ErrorResponse | Finished(finished: bool)

  function PromptResponse(turn: Turn): Response {
    match turn
    case NoAgent => Finished(true)
    case Completed(_, _) => Finished(true)
    case Cancelled(events, _) => if ApprovalRequested(events) then Finished(false) else ErrorResponse
    case Failed => ErrorResponse
  }

  lemma {:induction false} EventsAreNotFinal(approvals: bool, session: string, events: seq<Event>)
    ensures forall i :: 0 <= i < |EventUpdates(approvals, session, events)| ==>
              !EventUpdates(approvals, session, events)[i].finished
    decreases |events|
  {
    if events != [] {
      EventsAreNotFinal(approvals, session, events[..|events| - 1]);
    }
  }

  predicate EndsFinal(us: seq<Update>) {
    us != [] && us[|us| - 1].finished
  }

  /** Within a prompt only the last update can be final, and it is unless the turn failed or waits
      for an approval. */
  lemma OnlyLastIsFinal(approvals: bool, session: string, prompt: string, turn: Turn)
    ensures var us := PromptUpdates(approvals, session, prompt, turn);
            forall i :: 0 <= i < |us| && us[i].finished ==> i == |us| - 1
    ensures EndsFinal(PromptUpdates(approvals, session, prompt, turn)) <==>
              (PromptResponse(turn).Finished? && (turn.NoAgent? || !Waiting(approvals, turn.events, turn.output)))
  {
    hide ApprovalRequested, Has;
    if turn.Completed? || turn.Cancelled? {
      EventsAreNotFinal(approvals, session, turn.events);
    }
  }

  /** The response's flag and the presence of a final update agree exactly unless a completed turn
      ends on an approval request without output, or a turn cancelled for an approval has output or
      runs with approval requests disabled. */
  lemma ResponseAgrees(approvals: bool, session: string, prompt: string, turn: Turn)
    ensures PromptResponse(turn) == Finished(EndsFinal(PromptUpdates(approvals, session, prompt, turn)))
            <==> (match turn
                  case NoAgent => true
                  case Completed(events, output) => !Waiting(approvals, events, output)
                  case Cancelled(events, output) => ApprovalRequested(events) && Waiting(approvals, events, output)
                  case Failed => false)
  {
    hide ApprovalRequested, Has, PromptUpdates;
    OnlyLastIsFinal(approvals, session, prompt, turn);
  }

  /** A completed turn that ends on an approval request is finished for the response, and has no final
      update; a cancelled one that says something has one, and is not finished for the response. */
  lemma ResponseCanDisagree(session: string, prompt: string)
    ensures var events := [Event(ToolDenied, "shell", "sc.tool.approval_required")];
            var completed, cancelled := Completed(events, ""), Cancelled(events, "wait");
            && PromptResponse(completed) == Finished(true)
            && !EndsFinal(PromptUpdates(true, session, prompt, completed))
            && PromptResponse(cancelled) == Finished(false)
            && EndsFinal(PromptUpdates(true, session, prompt, cancelled))
  {
    hide EventUpdates;
    var events := [Event(ToolDenied, "shell", "sc.tool.approval_required")];
    assert events[0].kind == ToolDenied && events[0].message == "sc.tool.approval_required";
    EventsAreNotFinal(true, session, events);
  }

  /** Emits the events of a result one by one. */
  method EmitResult(builder: string, approvals: bool, session: string, events: seq<Event>, output: string)
    returns (out: string)
    ensures out == builder + Stream(ResultUpdates(approvals, session, events, output))
  {
    hide Frame, Stream, EventUpdate, EventUpdates;
    var textEmitted, approvalRequested := false, false;
    out := builder;
    var i := 0;
    EmitStart(builder, approvals, session, events);
    while i < |events|
      invariant i <= |events|
      invariant out == builder + Stream(EventUpdates(approvals, session, events[..i]))
      invariant textEmitted == Has(events[..i], TextDelta)
      invariant approvalRequested == (approvals && Has(events[..i], ToolDenied))
    {
      var e := events[i];
      var us := EventUpdate(approvals, session, e);
      EmitStep(builder, approvals, session, events, i);
      if us != [] {
        out := EmitUpdate(out, us[0]);
      }
      HasStep(events, i, TextDelta);
      HasStep(events, i, ToolDenied);
      textEmitted := textEmitted || e.kind == TextDelta;
      approvalRequested := approvalRequested || (e.kind == ToolDenied && approvals);
      i := i + 1;
    }
    assert events[..|events|] == events;
    ghost var us := EventUpdates(approvals, session, events);
    if approvalRequested && output == [] {
      return;
    }
    if !textEmitted && output != [] {
      StreamPush(us, Update(session, "text", "assistant", output, false));
      us := us + [Update(session, "text", "assistant", output, false)];
      out := EmitUpdate(out, Update(session, "text", "assistant", output, false));
    }
    StreamPush(us, Final(session, output));
    out := EmitUpdate(out, Final(session, output));
    assert us + [Final(session, output)] == ResultUpdates(approvals, session, events, output);
  }

  lemma EmitStart(builder: string, approvals: bool, session: string, events: seq<Event>)
    ensures builder == builder + Stream(EventUpdates(approvals, session, events[..0]))
  {
  }

  lemma {:induction false} StreamPush(us: seq<Update>, u: Update)
    ensures Stream(us + [u]) == Stream(us) + Frame(u)
  {
    hide Frame;
    if us == [] {
      assert [u][1..] == [];
    } else {
      StreamPush(us[1..], u);
      assert (us + [u])[1..] == us[1..] + [u];
    }
  }

  lemma EmitStep(builder: string, approvals: bool, session: string, events: seq<Event>, i: nat)
    requires i < |events|
    ensures var us := EventUpdate(approvals, session, events[i]);
            && |us| <= 1
            && builder + Stream(EventUpdates(approvals, session, events[..i + 1]))
               == builder + Stream(EventUpdates(approvals, session, events[..i]))
                  + (if us == [] then "" else Frame(us[0]))
  {
    hide Frame, Stream;
    assert events[..i + 1][..i] == events[..i];
    var before := EventUpdates(approvals, session, events[..i]);
    var us := EventUpdate(approvals, session, events[i]);
    if us == [] {
      assert before + [] == before;
    } else {
      assert us == [us[0]];
      StreamPush(before, us[0]);
    }
  }

  lemma HasStep(events: seq<Event>, i: nat, kind: EventKind)
    requires i < |events|
    ensures Has(events[..i + 1], kind) <==> Has(events[..i], kind) || events[i].kind == kind
  {
    if Has(events[..i], kind) {
      var j :| 0 <= j < i && events[..i][j].kind == kind;
      assert events[..i + 1][j].kind == kind;
    } else if events[i].kind == kind {
      assert events[..i + 1][i].kind == kind;
    }
  }

  // ---- What a client sees ----------------------------------------------------------------------

  /** The kind of frame an event is shown as; an approval is asked for only when that is enabled. */
  lemma EventShown(approvals: bool, session: string, e: Event)
    ensures var us := EventUpdate(approvals, session, e);
            && (e.kind == TextDelta ==> us == [Update(session, "text", e.name, e.message, false)])
            && (e.kind == ToolCalled ==> us == [Update(session, "tool_call", e.name, e.message, false)])
            && (e.kind == ToolResult ==> us == [Update(session, "tool_result", e.name, e.message, false)])
            && (e.kind == ToolDenied && approvals ==>
                  us == [Update(session, "approval_request", e.name, e.message, false)])
            && (us == [] <==> e.kind == OtherEvent || (e.kind == ToolDenied && !approvals))
            && (e.kind in {PromptBuilt, ProviderStarted, ProviderCalled} ==>
                  us == [Update(session, "reasoning", e.name, e.message, false)])
  {
  }

  /** The updates of a result are those of its events in order, then its output as a text unless it was
      streamed, then the output as the final update; a result that waits for an approval stops before. */
  lemma ResultShown(approvals: bool, session: string, e: Event, output: string)
    ensures var us := ResultUpdates(approvals, session, [e], output);
            var shown := EventUpdate(approvals, session, e);
            && (e.kind == TextDelta ==> us == shown + [Update(session, "final", "assistant", output, true)])
            && (e.kind == ToolDenied && approvals && output == [] ==> us == shown)
            && (e.kind != TextDelta && output != [] ==>
                  us == shown + [Update(session, "text", "assistant", output, false),
                                 Update(session, "final", "assistant", output, true)])
  {
    hide EventUpdate;
    var events := [e];
    assert events[..0] == [] && events[0] == e;
    assert Has(events, e.kind);
    assert EventUpdates(approvals, session, events) == EventUpdate(approvals, session, e);
  }

  /** Events are shown in their order. */
  lemma {:induction false} EventsInOrder(approvals: bool, session: string, a: seq<Event>, b: seq<Event>)
    ensures EventUpdates(approvals, session, a + b)
         == EventUpdates(approvals, session, a) + EventUpdates(approvals, session, b)
    decreases |b|
  {
    hide EventUpdate;
    if b == [] {
      assert a + b == a;
    } else {
      assert (a + b)[..|a + b| - 1] == a + b[..|b| - 1];
      EventsInOrder(approvals, session, a, b[..|b| - 1]);
    }
  }

  /** What a prompt shows before and besides the result. */
  lemma PromptShown(approvals: bool, session: string, prompt: string, turn: Turn)
    ensures var us := PromptUpdates(approvals, session, prompt, turn);
            && us != [] && us[0] == Update(session, "reasoning", "request", "accepted", false)
            && (turn.NoAgent? ==> us[1..] == [Update(session, "text", "assistant", prompt, false),
                                              Update(session, "final", "assistant", prompt, true)])
            && (turn.Completed? ==> us[1..] == ResultUpdates(approvals, session, turn.events, turn.output))
            && (turn.Failed? ==> us[1..] == [])
            && (turn.Cancelled? && (forall i :: 0 <= i < |turn.events| ==> turn.events[i].kind != ToolDenied) ==>
                  us[1..] == [])
  {
    hide ResultUpdates;
  }
}
