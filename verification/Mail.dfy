/** The mail channel's message printer and its header and body parser; the lines and the blank line
    are those of sections 2.1 and 2.2 of RFC 5322. */
module Mail {
  import opened Text

  const CRLF: string := "\r\n"
  const REPLY_SUBJECT: string := "SmolClaw reply"

  datatype Channel = Channel(from: string, to: string, subjectPrefix: string)
  datatype Reply = Reply(text: string, replyTo: string)
  datatype Inbound = Inbound(messageId: string, sender: string, text: string)

  predicate IsBreak(c: char) {
    c == '\n' || c == '\r'
  }

  /** Fits in one line. */
  predicate OneLine(s: string) {
    forall i :: 0 <= i < |s| ==> !IsBreak(s[i])
  }

  // ---- The printer -----------------------------------------------------------------------------

  function Subject(c: Channel): string {
    (if c.subjectPrefix == [] then "" else c.subjectPrefix + " ") + REPLY_SUBJECT
  }

  function HeaderLines(c: Channel, r: Reply): seq<string> {
    ["From: " + c.from, "To: " + c.to, "Subject: " + Subject(c)]
    + if r.replyTo == [] then [] else ["In-Reply-To: " + r.replyTo, "References: " + r.replyTo]
  }

  /** Lines separated by breaks, an empty line, and the body. */
  function Assemble(lines: seq<string>, body: string): string
    requires lines != []
  {
    if |lines| == 1 then lines[0] + (CRLF + (CRLF + body))
    else lines[0] + (CRLF + Assemble(lines[1..], body))
  }

  function Build(c: Channel, r: Reply): string {
    Assemble(HeaderLines(c, r), r.text + CRLF)
  }

  // ---- The parser ------------------------------------------------------------------------------

  function LineLength(s: string): (k: nat)
    ensures k <= |s| && OneLine(s[..k]) && (k < |s| ==> IsBreak(s[k]))
  {
    if s == [] || IsBreak(s[0]) then 0 else 1 + LineLength(s[1..])
  }

  function SkipBreaks(s: string): (r: string)
    ensures |r| <= |s| && (r != [] ==> !IsBreak(r[0]))
    ensures s != [] && IsBreak(s[0]) ==> |r| < |s|
  {
    if s != [] && IsBreak(s[0]) then SkipBreaks(s[1..]) else s
  }

  predicate IsHeader(line: string, name: string) {
    |line| > |name| && line[..|name|] == name && line[|name|] == ':'
  }

  /** The value of the first line, anywhere in the message, that starts with the name and a colon. */
  function HeaderValue(raw: string, name: string): string
    decreases |raw|
  {
    if raw == [] then []
    else
      var k := LineLength(raw);
      if IsHeader(raw[..k], name) then raw[|name| + 1..k] else HeaderValue(SkipBreaks(raw[k..]), name)
  }

  /** What follows the first empty line. */
  function Body(raw: string): string {
    if |raw| < 2 then []
    else if raw[0] == '\n' && raw[1] == '\n' then raw[2..]
    else if |raw| >= 4 && raw[..4] == "\r\n\r\n" then raw[4..]
    else Body(raw[1..])
  }

  function Trim(s: string): string {
    TrimRight(TrimLeft(s, IsWhite), IsWhite)
  }

  function Parse(raw: string): Result<Inbound> {
    var id := Trim(HeaderValue(raw, MESSAGE_ID));
    var from := Trim(HeaderValue(raw, "From"));
    var subject := Trim(HeaderValue(raw, "Subject"));
    var body := Trim(Body(raw));
    if raw == [] then Err("sc.channel_mail.parse_invalid_argument")
    else if body == [] && subject == [] then Err("sc.channel_mail.empty_message")
    else Ok(Inbound(if id == [] then "mail" else id, if from == [] then "mail" else from,
                    subject + (if subject != [] && body != [] then "\n\n" else "") + body))
  }

  // ---- Reading back what was printed -----------------------------------------------------------

  lemma {:induction false} LineLengthOf(line: string, rest: string)
    requires OneLine(line)
    ensures LineLength(line + (CRLF + rest)) == |line|
  {
    if line != [] {
      LineLengthOf(line[1..], rest);
      assert (line + (CRLF + rest))[1..] == line[1..] + (CRLF + rest);
    }
  }

  lemma SkipOneBreak(rest: string)
    requires rest != [] && !IsBreak(rest[0])
    ensures SkipBreaks(CRLF + rest) == rest
  {
    assert (CRLF + rest)[1..] == "\n" + rest && ("\n" + rest)[1..] == rest;
    assert SkipBreaks("\n" + rest) == SkipBreaks(rest) == rest;
  }

  /** The first line either is the header looked for, or is passed over. */
  lemma HeaderOfFirstLine(line: string, rest: string, name: string)
    requires line != [] && OneLine(line)
    ensures IsHeader(line, name) ==> HeaderValue(line + (CRLF + rest), name) == line[|name| + 1..]
    ensures !IsHeader(line, name) && rest != [] && !IsBreak(rest[0]) ==>
              HeaderValue(line + (CRLF + rest), name) == HeaderValue(rest, name)
  {
    hide IsHeader, IsBreak;
    var raw := line + (CRLF + rest);
    LineLengthOf(line, rest);
    assert raw[..|line|] == line && raw[|line|..] == CRLF + rest;
    if IsHeader(line, name) {
      HeaderIsLonger(line, name);
      assert raw[|name| + 1..|line|] == line[|name| + 1..];
    } else if rest != [] && !IsBreak(rest[0]) {
      SkipOneBreak(rest);
    }
  }

  lemma HeaderIsLonger(line: string, name: string)
    requires IsHeader(line, name)
    ensures |name| + 1 <= |line|
  {
  }

  lemma {:induction false} BodyAfterLine(line: string, rest: string)
    requires OneLine(line) && rest != [] && !IsBreak(rest[0])
    ensures Body(line + (CRLF + rest)) == Body(rest)
  {
    var raw := line + (CRLF + rest);
    if line == [] {
      assert raw[1..] == "\n" + rest && ("\n" + rest)[1..] == rest;
      assert raw[2] == rest[0];
      assert Body("\n" + rest) == Body(rest);
    } else {
      assert raw[0] == line[0] && !IsBreak(raw[0]);
      assert raw[1..] == line[1..] + (CRLF + rest);
      BodyAfterLine(line[1..], rest);
    }
  }

  lemma {:induction false} BodyAfterLast(line: string, body: string)
    requires OneLine(line)
    ensures Body(line + (CRLF + (CRLF + body))) == body
  {
    var raw := line + (CRLF + (CRLF + body));
    if line == [] {
      assert raw[..4] == "\r\n\r\n" && raw[4..] == body;
    } else {
      assert raw[0] == line[0] && !IsBreak(raw[0]);
      assert raw[1..] == line[1..] + (CRLF + (CRLF + body));
      BodyAfterLast(line[1..], body);
    }
  }

  predicate GoodLines(lines: seq<string>) {
    forall i :: 0 <= i < |lines| ==> lines[i] != [] && OneLine(lines[i])
  }

  lemma AssembleStarts(lines: seq<string>, body: string)
    requires lines != [] && GoodLines(lines)
    ensures Assemble(lines, body) != [] && !IsBreak(Assemble(lines, body)[0])
  {
    assert lines[0] != [] && OneLine(lines[0]);
  }

  lemma {:induction false} BodyOfAssembled(lines: seq<string>, body: string)
    requires lines != [] && GoodLines(lines)
    ensures Body(Assemble(lines, body)) == body
  {
    hide Body, OneLine;
    if |lines| == 1 {
      BodyAfterLast(lines[0], body);
    } else {
      AssembleStarts(lines[1..], body);
      BodyAfterLine(lines[0], Assemble(lines[1..], body));
      BodyOfAssembled(lines[1..], body);
    }
  }

  /** The value of header `k`, when no earlier line is the header looked for. */
  lemma {:induction false} HeaderOfAssembled(lines: seq<string>, body: string, name: string, k: nat)
    requires GoodLines(lines) && k < |lines| && IsHeader(lines[k], name)
    requires forall i :: 0 <= i < k ==> !IsHeader(lines[i], name)
    ensures |name| + 1 <= |lines[k]|
    ensures HeaderValue(Assemble(lines, body), name) == lines[k][|name| + 1..]
    decreases |lines|
  {
    hide HeaderValue, IsHeader, OneLine;
    HeaderIsLonger(lines[k], name);
    var rest := if |lines| == 1 then CRLF + body else Assemble(lines[1..], body);
    HeaderOfFirstLine(lines[0], rest, name);
    if k > 0 {
      AssembleStarts(lines[1..], body);
      HeaderOfAssembled(lines[1..], body, name, k - 1);
    }
  }

  // ---- Trimming --------------------------------------------------------------------------------

  lemma {:induction false} TrimLeftEnd(s: string, c: char)
    requires IsWhite(c)
    ensures TrimLeft(s + [c], IsWhite) == if TrimLeft(s, IsWhite) == [] then [] else TrimLeft(s, IsWhite) + [c]
  {
    if s != [] && IsWhite(s[0]) {
      TrimLeftEnd(s[1..], c);
      assert (s + [c])[1..] == s[1..] + [c];
    } else if s == [] {
      assert (s + [c])[1..] == [];
    }
  }

  lemma TrimEnd(s: string, c: char)
    requires IsWhite(c)
    ensures Trim(s + [c]) == Trim(s)
  {
    TrimLeftEnd(s, c);
    var t := TrimLeft(s, IsWhite);
    assert (t + [c])[..|t|] == t;
  }

  lemma TrimStart(s: string)
    ensures Trim([' '] + s) == Trim(s)
  {
    assert ([' '] + s)[1..] == s;
  }

  lemma TrimCrlf(s: string)
    ensures Trim(s + CRLF) == Trim(s)
  {
    TrimEnd(s, '\r');
    TrimEnd(s + ['\r'], '\n');
    assert s + ['\r'] + ['\n'] == s + CRLF;
  }

  // ---- The round trip --------------------------------------------------------------------------

  lemma OneLineConcat(a: string, b: string)
    requires OneLine(a) && OneLine(b)
    ensures OneLine(a + b)
  {
  }

  lemma HeadersAreGood(c: Channel, r: Reply)
    requires OneLine(c.from) && OneLine(c.to) && OneLine(c.subjectPrefix) && OneLine(r.replyTo)
    ensures GoodLines(HeaderLines(c, r))
  {
    assert OneLine("From: ") && OneLine("To: ") && OneLine("Subject: ");
    assert OneLine("In-Reply-To: ") && OneLine("References: ");
    assert OneLine(" ") && OneLine(REPLY_SUBJECT) && OneLine("");
    hide OneLine;
    OneLineConcat("From: ", c.from);
    OneLineConcat("To: ", c.to);
    OneLineConcat(c.subjectPrefix, " ");
    OneLineConcat(if c.subjectPrefix == [] then "" else c.subjectPrefix + " ", REPLY_SUBJECT);
    OneLineConcat("Subject: ", Subject(c));
    OneLineConcat("In-Reply-To: ", r.replyTo);
    OneLineConcat("References: ", r.replyTo);
  }

  lemma FromHeader(c: Channel, r: Reply)
    requires GoodLines(HeaderLines(c, r))
    ensures HeaderValue(Build(c, r), "From") == [' '] + c.from
  {
    hide HeaderValue, GoodLines, Assemble;
    var lines := HeaderLines(c, r);
    assert lines[0] == "From" + ([':'] + ([' '] + c.from));
    NamedHeader("From", [' '] + c.from);
    HeaderOfAssembled(lines, r.text + CRLF, "From", 0);
  }

  lemma NamedHeader(name: string, value: string)
    ensures IsHeader(name + ([':'] + value), name) && (name + ([':'] + value))[|name| + 1..] == value
  {
    assert (name + ([':'] + value))[..|name|] == name;
  }

  lemma SubjectHeader(c: Channel, r: Reply)
    requires GoodLines(HeaderLines(c, r))
    ensures HeaderValue(Build(c, r), "Subject") == [' '] + Subject(c)
  {
    hide HeaderValue, GoodLines, Assemble, Subject;
    var lines := HeaderLines(c, r);
    assert lines[2] == "Subject" + ([':'] + ([' '] + Subject(c)));
    NamedHeader("Subject", [' '] + Subject(c));
    OtherHeader(lines[0], "Subject");
    OtherHeader(lines[1], "Subject");
    HeaderOfAssembled(lines, r.text + CRLF, "Subject", 2);
  }

  lemma OtherHeader(line: string, name: string)
    requires line != [] && name != [] && line[0] != name[0]
    ensures !IsHeader(line, name)
  {
    assert |line| > |name| ==> line[..|name|][0] == line[0];
  }

  /** For headers of one line each and any body text, parsing the printed mail gives back the trimmed
      sender, subject and body. */
  lemma ParseInvertsBuild(c: Channel, r: Reply)
    requires OneLine(c.from) && OneLine(c.to) && OneLine(c.subjectPrefix) && OneLine(r.replyTo)
    ensures Trim(HeaderValue(Build(c, r), "From")) == Trim(c.from)
    ensures Trim(HeaderValue(Build(c, r), "Subject")) == Trim(Subject(c))
    ensures Trim(Body(Build(c, r))) == Trim(r.text)
  {
    hide HeaderValue, Body, Trim, Build, Subject, HeaderLines, GoodLines, OneLine;
    HeadersAreGood(c, r);
    FromHeader(c, r);
    SubjectHeader(c, r);
    BodyOfBuilt(c, r);
    TrimStart(c.from);
    TrimStart(Subject(c));
    TrimCrlf(r.text);
  }

  lemma BodyOfBuilt(c: Channel, r: Reply)
    requires GoodLines(HeaderLines(c, r))
    ensures Body(Build(c, r)) == r.text + CRLF
  {
    BodyOfAssembled(HeaderLines(c, r), r.text + CRLF);
  }

  // ---- Headers looked for in the body ----------------------------------------------------------

  lemma HeaderPastLast(line: string, body: string, name: string)
    requires line != [] && OneLine(line) && !IsHeader(line, name)
    ensures HeaderValue(line + (CRLF + (CRLF + body)), name) == HeaderValue(SkipBreaks(body), name)
  {
    hide IsHeader;
    var raw := line + (CRLF + (CRLF + body));
    LineLengthOf(line, CRLF + body);
    assert raw[..|line|] == line && raw[|line|..] == CRLF + (CRLF + body);
    SkipCrlf(CRLF + body);
    SkipCrlf(body);
  }

  lemma SkipCrlf(s: string)
    ensures SkipBreaks(CRLF + s) == SkipBreaks(s)
  {
    assert (CRLF + s)[1..] == "\n" + s && ("\n" + s)[1..] == s;
    assert SkipBreaks("\n" + s) == SkipBreaks(s);
  }

  lemma {:induction false} HeaderOnlyInBody(lines: seq<string>, body: string, name: string)
    requires lines != [] && GoodLines(lines) && forall i :: 0 <= i < |lines| ==> !IsHeader(lines[i], name)
    ensures HeaderValue(Assemble(lines, body), name) == HeaderValue(SkipBreaks(body), name)
  {
    hide HeaderValue, IsHeader, OneLine;
    if |lines| == 1 {
      HeaderPastLast(lines[0], body, name);
    } else {
      AssembleStarts(lines[1..], body);
      HeaderOfFirstLine(lines[0], Assemble(lines[1..], body), name);
      HeaderOnlyInBody(lines[1..], body, name);
    }
  }

  const MESSAGE_ID: string := "Message-ID"

  lemma HeaderSkipsBreaks(s: string, name: string)
    ensures HeaderValue(SkipBreaks(s), name) == HeaderValue(s, name)
  {
    if s != [] && IsBreak(s[0]) {
      assert LineLength(s) == 0 && s[..0] == [] && s[0..] == s;
    }
  }

  lemma {:induction false} SkipBreaksConcat(s: string)
    ensures SkipBreaks(s + CRLF) == if SkipBreaks(s) == [] then [] else SkipBreaks(s) + CRLF
  {
    if s == [] {
      SkipCrlf([]);
      assert [] + CRLF == CRLF + [];
    } else if IsBreak(s[0]) {
      assert (s + CRLF)[1..] == s[1..] + CRLF;
      SkipBreaksConcat(s[1..]);
    }
  }

  lemma {:induction false} LineLengthKeeps(s: string)
    ensures LineLength(s + CRLF) == LineLength(s)
  {
    if s != [] && !IsBreak(s[0]) {
      assert (s + CRLF)[1..] == s[1..] + CRLF;
      LineLengthKeeps(s[1..]);
    }
  }

  /** A final line break changes no header. */
  lemma {:induction false} HeaderBeforeCrlf(s: string, name: string)
    ensures HeaderValue(s + CRLF, name) == HeaderValue(s, name)
    decreases |s|
  {
    hide IsHeader, LineLength, SkipBreaks;
    var k := LineLength(s);
    LineLengthKeeps(s);
    SkipBreaksConcat(s[k..]);
    assert (s + CRLF)[..k] == s[..k] && (s + CRLF)[k..] == s[k..] + CRLF;
    NoHeader(name);
    if s == [] {
      NotInEmpty(name);
      assert s[k..] == [] && SkipBreaks(s[k..]) == [];
    } else if SkipBreaks(s[k..]) != [] {
      LineOrBreak(s);
      HeaderBeforeCrlf(SkipBreaks(s[k..]), name);
    }
  }

  lemma NotInEmpty(name: string)
    ensures !IsHeader([], name) && LineLength([]) == 0 && SkipBreaks([]) == []
  {
  }

  lemma LineOrBreak(s: string)
    requires s != []
    ensures |SkipBreaks(s[LineLength(s)..])| < |s|
  {
  }

  /** A line of a text, from `i` up to its break or the end. */
  predicate IsLine(s: string, i: nat, j: nat) {
    && i <= j <= |s| && NoBreaks(s, i, j)
    && (i == 0 || IsBreak(s[i - 1])) && (j == |s| || IsBreak(s[j]))
  }

  predicate IsHeaderLine(s: string, name: string, i: nat, j: nat) {
    IsLine(s, i, j) && IsHeader(s[i..j], name)
  }

  ghost predicate FirstHeaderLine(s: string, name: string, i: nat, j: nat) {
    IsHeaderLine(s, name, i, j) && forall k: nat, l: nat :: IsHeaderLine(s, name, k, l) ==> i <= k
  }

  ghost predicate NoHeaderLine(s: string, name: string) {
    forall k: nat, l: nat :: !IsHeaderLine(s, name, k, l)
  }

  lemma {:induction false} SkipsOnlyBreaks(s: string)
    ensures forall m :: 0 <= m < |s| - |SkipBreaks(s)| ==> IsBreak(s[m])
    ensures s[|s| - |SkipBreaks(s)|..] == SkipBreaks(s)
  {
    if s != [] && IsBreak(s[0]) {
      SkipsOnlyBreaks(s[1..]);
      assert forall m :: 0 < m < |s| ==> s[m] == s[1..][m - 1];
    }
  }

  /** A line of `s` that starts at `at` ends at the next break; none starts between there and the next
      byte that is no break, but an empty one. */
  lemma LinesBetween(s: string, at: nat, end: nat, next: nat, k: nat, l: nat)
    requires at <= end <= next <= |s| && NoBreaks(s, at, end) && (end < |s| ==> IsBreak(s[end]))
    requires forall m :: end <= m < next ==> IsBreak(s[m])
    requires IsLine(s, k, l) && at <= k < next
    ensures (k == at && l == end) || k == l
  {
    assert k < l ==> !IsBreak(s[k]);
  }

  lemma HeaderLineIsLong(s: string, name: string, k: nat, l: nat)
    requires IsHeaderLine(s, name, k, l)
    ensures k < l
  {
  }

  /** What the search from a line start of `s` finds. */
  lemma {:induction false} SearchFrom(s: string, name: string, at: nat) returns (found: bool, i: nat, j: nat)
    requires at <= |s| && (at == 0 || at == |s| || IsBreak(s[at - 1]))
    requires forall k: nat, l: nat :: IsHeaderLine(s, name, k, l) ==> at <= k
    ensures found ==> FirstHeaderLine(s, name, i, j) && i + |name| + 1 <= j
                      && HeaderValue(s[at..], name) == s[i + |name| + 1..j]
    ensures !found ==> NoHeaderLine(s, name) && HeaderValue(s[at..], name) == []
    decreases |s| - at
  {
    hide HeaderValue, SkipBreaks, LineLength, IsHeader;
    if at == |s| {
      found, i, j := false, 0, 0;
      assert s[at..] == [];
      NoHeader(name);
      NotInEmpty(name);
      forall k: nat, l: nat | IsLine(s, k, l) && at <= k
        ensures !IsHeader(s[k..l], name)
      {
        assert s[k..l] == [];
      }
    } else {
      var end := at + LineLength(s[at..]);
      var next := |s| - |SkipBreaks(s[end..])|;
      LineBounds(s, at, end);
      SkipsOnlyBreaks(s[end..]);
      assert forall m :: end <= m < next ==> s[m] == s[end..][m - end];
      assert s[next..] == SkipBreaks(s[end..]);
      HeaderStep(s, at, end, next, name);
      NotInEmpty(name);
      forall k: nat, l: nat | IsHeaderLine(s, name, k, l) && k < next
        ensures k == at && l == end
      {
        HeaderLineIsLong(s, name, k, l);
        LinesBetween(s, at, end, next, k, l);
      }
      if IsHeader(s[at..end], name) {
        found, i, j := true, at, end;
        HeaderIsLonger(s[at..end], name);
        assert s[at..end][|name| + 1..] == s[at + |name| + 1..end];
      } else {
        LineOrBreak(s[at..]);
        SliceTwice(s, at, end);
        found, i, j := SearchFrom(s, name, next);
      }
    }
  }

  lemma LineBounds(s: string, at: nat, end: nat)
    requires at <= |s| && end == at + LineLength(s[at..])
    ensures at <= end <= |s| && NoBreaks(s, at, end) && (end < |s| ==> IsBreak(s[end]))
  {
    var line := s[at..][..end - at];
    assert line == s[at..end];
    assert forall m :: at <= m < end ==> s[m] == line[m - at];
  }

  lemma OneFirst(s: string, name: string, i: nat, j: nat, k: nat, l: nat)
    requires FirstHeaderLine(s, name, i, j) && FirstHeaderLine(s, name, k, l)
    ensures i == k && j == l
  {
    hide IsHeader;
  }

  /** The header search does not stop at the empty line: a printed mail has no Message-ID of its own,
      so its id is the one its body holds, if any. */
  lemma MessageIdComesFromBody(c: Channel, r: Reply)
    requires OneLine(c.from) && OneLine(c.to) && OneLine(c.subjectPrefix) && OneLine(r.replyTo)
    ensures HeaderValue(Build(c, r), MESSAGE_ID) == HeaderValue(r.text, MESSAGE_ID)
    ensures Parse(Build(c, r)).Ok?
    ensures Parse(Build(c, r)).value.messageId ==
              (var id := Trim(HeaderValue(r.text, MESSAGE_ID)); if id == [] then "mail" else id)
  {
    HeadersAreGood(c, r);
    var lines := HeaderLines(c, r);
    forall i | 0 <= i < |lines|
      ensures !IsHeader(lines[i], MESSAGE_ID)
    {
      OtherHeader(lines[i], MESSAGE_ID);
    }
    HeaderOnlyInBody(lines, r.text + CRLF, MESSAGE_ID);
    hide HeaderValue, Body, Trim, Subject, HeaderLines, GoodLines, OneLine, SkipBreaks;
    HeaderSkipsBreaks(r.text + CRLF, MESSAGE_ID);
    HeaderBeforeCrlf(r.text, MESSAGE_ID);
    ParseInvertsBuild(c, r);
    SubjectIsNotBlank(c);
    BuildIsNotEmpty(c, r);
  }

  /** The value of the header line from `i` to `j`. */
  function ValueOf(s: string, i: nat, j: nat): string
    requires IsHeaderLine(s, MESSAGE_ID, i, j)
  {
    s[i + |MESSAGE_ID| + 1..j]
  }

  /** A printed mail parses with the placeholder id exactly when no line of its body is a Message-ID
      header, or the first that is one has a blank value or the placeholder itself. */
  lemma PlaceholderIff(c: Channel, r: Reply)
    requires OneLine(c.from) && OneLine(c.to) && OneLine(c.subjectPrefix) && OneLine(r.replyTo)
    ensures Parse(Build(c, r)).Ok?
    ensures Parse(Build(c, r)).value.messageId == "mail"
            <==> (NoHeaderLine(r.text, MESSAGE_ID)
                  || exists i: nat, j: nat ::
                       FirstHeaderLine(r.text, MESSAGE_ID, i, j) && Trim(ValueOf(r.text, i, j)) in ["", "mail"])
  {
    hide Parse, Build, Trim, HeaderValue, IsHeader, IsLine;
    MessageIdComesFromBody(c, r);
    assert r.text[0..] == r.text;
    BlankIsBlank();
    var found, i, j := SearchFrom(r.text, MESSAGE_ID, 0);
    if found {
      assert HeaderValue(r.text, MESSAGE_ID) == ValueOf(r.text, i, j);
      assert IsHeaderLine(r.text, MESSAGE_ID, i, j);
      forall k: nat, l: nat | FirstHeaderLine(r.text, MESSAGE_ID, k, l)
        ensures k == i && l == j
      {
        OneFirst(r.text, MESSAGE_ID, i, j, k, l);
      }
    }
  }

  lemma BlankIsBlank()
    ensures Trim([]) == []
  {
  }

  /** Parsing a printed mail gives back the sender, or the placeholder when it is blank, and as text the
      subject, an empty line and the body, or the subject alone when the body is blank. */
  lemma ParsedMail(c: Channel, r: Reply)
    requires OneLine(c.from) && OneLine(c.to) && OneLine(c.subjectPrefix) && OneLine(r.replyTo)
    ensures Parse(Build(c, r)).Ok?
    ensures var mail := Parse(Build(c, r)).value;
            && mail.sender == (if Trim(c.from) == [] then "mail" else Trim(c.from))
            && mail.text == Trim(Subject(c)) + (if Trim(r.text) == [] then [] else "\n\n" + Trim(r.text))
  {
    hide HeaderValue, Body, Trim, Build, Subject;
    ParseInvertsBuild(c, r);
    SubjectIsNotBlank(c);
    BuildIsNotEmpty(c, r);
    var subject, body := Trim(Subject(c)), Trim(r.text);
    assert (subject + "\n\n") + body == subject + ("\n\n" + body);
  }

  /** The subject, with its prefix. */
  lemma SubjectSpelled(c: Channel)
    ensures Subject(c) == if c.subjectPrefix == [] then "SmolClaw reply" else c.subjectPrefix + " SmolClaw reply"
  {
    assert " " + REPLY_SUBJECT == " SmolClaw reply";
    assert (c.subjectPrefix + " ") + REPLY_SUBJECT == c.subjectPrefix + (" " + REPLY_SUBJECT);
  }

  /** Parsing fails exactly on an empty text, and on one whose subject and body are both blank. */
  lemma ParseFailsIff(raw: string)
    ensures Parse(raw).Err? <==> raw == [] || (Trim(HeaderValue(raw, "Subject")) == [] && Trim(Body(raw)) == [])
    ensures Parse(raw).Err? ==>
              Parse(raw).code ==
              if raw == [] then "sc.channel_mail.parse_invalid_argument" else "sc.channel_mail.empty_message"
    ensures Parse(raw).Ok? ==>
              var mail := Parse(raw).value;
              var from := Trim(HeaderValue(raw, "From"));
              && mail.sender == (if from == [] then "mail" else from)
              && (Trim(HeaderValue(raw, "Subject")) == [] ==> mail.text == Trim(Body(raw)))
              && (Trim(Body(raw)) == [] ==> mail.text == Trim(HeaderValue(raw, "Subject")))
  {
    hide HeaderValue, Body, Trim;
    NoHeader("Subject");
  }

  /** A printed mail names its receiver, and the message it answers, if any. */
  lemma OtherHeaders(c: Channel, r: Reply)
    requires OneLine(c.from) && OneLine(c.to) && OneLine(c.subjectPrefix) && OneLine(r.replyTo)
    ensures HeaderValue(Build(c, r), "To") == [' '] + c.to
    ensures r.replyTo != [] ==> HeaderValue(Build(c, r), "In-Reply-To") == [' '] + r.replyTo
    ensures r.replyTo != [] ==> HeaderValue(Build(c, r), "References") == [' '] + r.replyTo
  {
    hide HeaderValue, GoodLines, Assemble, Subject, OneLine;
    HeadersAreGood(c, r);
    var lines := HeaderLines(c, r);
    assert lines[1] == "To" + ([':'] + ([' '] + c.to));
    NamedHeader("To", [' '] + c.to);
    OtherHeader(lines[0], "To");
    HeaderOfAssembled(lines, r.text + CRLF, "To", 1);
    if r.replyTo != [] {
      assert lines[3] == "In-Reply-To" + ([':'] + ([' '] + r.replyTo));
      assert lines[4] == "References" + ([':'] + ([' '] + r.replyTo));
      NamedHeader("In-Reply-To", [' '] + r.replyTo);
      NamedHeader("References", [' '] + r.replyTo);
      forall i | 0 <= i < 3
        ensures !IsHeader(lines[i], "In-Reply-To") && !IsHeader(lines[i], "References")
      {
        OtherHeader(lines[i], "In-Reply-To");
        OtherHeader(lines[i], "References");
      }
      OtherHeader(lines[3], "References");
      HeaderOfAssembled(lines, r.text + CRLF, "In-Reply-To", 3);
      HeaderOfAssembled(lines, r.text + CRLF, "References", 4);
    }
  }

  lemma BuildIsNotEmpty(c: Channel, r: Reply)
    ensures Build(c, r) != []
  {
  }

  lemma {:induction false} TrimLeftKeepsLast(s: string)
    requires s != [] && !IsWhite(s[|s| - 1])
    ensures TrimLeft(s, IsWhite) != [] && TrimLeft(s, IsWhite)[|TrimLeft(s, IsWhite)| - 1] == s[|s| - 1]
  {
    if IsWhite(s[0]) {
      TrimLeftKeepsLast(s[1..]);
    }
  }

  lemma SubjectIsNotBlank(c: Channel)
    ensures Trim(Subject(c)) != []
  {
    assert Subject(c)[|Subject(c)| - 1] == 'y';
    TrimLeftKeepsLast(Subject(c));
  }

  /** A body that reads as a Message-ID header becomes the id of the parsed mail. */
  lemma BodyTakenForHeader(c: Channel, r: Reply, id: string)
    requires OneLine(c.from) && OneLine(c.to) && OneLine(c.subjectPrefix) && OneLine(r.replyTo)
    requires r.text == MESSAGE_ID + ([':'] + id) && OneLine(id) && Trim(id) != []
    ensures Parse(Build(c, r)).Ok? && Parse(Build(c, r)).value.messageId == Trim(id)
  {
    hide HeaderValue, Parse, Build, Trim;
    MessageIdComesFromBody(c, r);
    assert OneLine(MESSAGE_ID + [':']);
    OneLineConcat(MESSAGE_ID + [':'], id);
    assert MESSAGE_ID + [':'] + id == r.text;
    NamedHeader(MESSAGE_ID, id);
    HeaderOfFirstLine(r.text, [], MESSAGE_ID);
    HeaderBeforeCrlf(r.text, MESSAGE_ID);
    assert r.text + CRLF == r.text + (CRLF + []);
  }

  // ---- In place --------------------------------------------------------------------------------

  predicate NoBreaks(raw: string, from: nat, to: nat)
    requires from <= to <= |raw|
  {
    forall i :: from <= i < to ==> !IsBreak(raw[i])
  }

  method FindHeader(raw: string, name: string) returns (value: string)
    ensures value == HeaderValue(raw, name)
  {
    hide HeaderValue, SkipBreaks;
    var i := 0;
    assert raw[0..] == raw;
    while i < |raw|
      invariant i <= |raw| && HeaderValue(raw[i..], name) == HeaderValue(raw, name)
      decreases |raw| - i
    {
      var end := i;
      while end < |raw| && raw[end] != '\n' && raw[end] != '\r'
        invariant i <= end <= |raw| && NoBreaks(raw, i, end)
      {
        end := end + 1;
      }
      var line := raw[i..end];
      var next := SkipFrom(raw, end);
      HeaderStep(raw, i, end, next, name);
      if |line| > |name| && line[..|name|] == name && line[|name|] == ':' {
        return line[|name| + 1..];
      }
      i := next;
    }
    assert raw[i..] == [];
    NoHeader(name);
    return [];
  }

  lemma NoHeader(name: string)
    ensures HeaderValue([], name) == []
  {
  }

  method SkipFrom(raw: string, at: nat) returns (next: nat)
    requires at <= |raw|
    ensures at <= next <= |raw| && raw[next..] == SkipBreaks(raw[at..])
    ensures at < |raw| && IsBreak(raw[at]) ==> at < next
  {
    next := at;
    while next < |raw| && (raw[next] == '\n' || raw[next] == '\r')
      invariant at <= next <= |raw| && SkipBreaks(raw[next..]) == SkipBreaks(raw[at..])
      invariant at < |raw| && IsBreak(raw[at]) && next == at ==> IsBreak(raw[next])
    {
      assert raw[next..][1..] == raw[next + 1..];
      next := next + 1;
    }
  }

  lemma HeaderUnfold(s: string, k: nat, name: string)
    requires s != [] && k == LineLength(s)
    ensures HeaderValue(s, name) ==
            if IsHeader(s[..k], name) then s[..k][|name| + 1..] else HeaderValue(SkipBreaks(s[k..]), name)
  {
    hide IsHeader, LineLength, SkipBreaks;
    if IsHeader(s[..k], name) {
      HeaderIsLonger(s[..k], name);
      assert s[|name| + 1..k] == s[..k][|name| + 1..];
    }
  }

  lemma HeaderStep(raw: string, i: nat, end: nat, next: nat, name: string)
    requires i < |raw| && i <= end <= |raw| && NoBreaks(raw, i, end) && (end < |raw| ==> IsBreak(raw[end]))
    requires end <= next <= |raw| && raw[next..] == SkipBreaks(raw[end..])
    ensures HeaderValue(raw[i..], name) ==
            if IsHeader(raw[i..end], name) then raw[i..end][|name| + 1..] else HeaderValue(raw[next..], name)
    ensures end < |raw| || next == |raw|
  {
    hide *;
    var tail, line, rest := raw[i..], raw[i..end], raw[end..];
    LineLengthFrom(raw, i, end);
    SliceTwice(raw, i, end);
    assert tail != [] && tail[..end - i] == line && tail[end - i..] == rest;
    HeaderUnfold(tail, end - i, name);
    AtEnd(raw, end, next);
  }

  lemma SliceTwice(raw: string, i: nat, end: nat)
    requires i <= end <= |raw|
    ensures raw[i..][..end - i] == raw[i..end] && raw[i..][end - i..] == raw[end..]
  {
  }

  lemma AtEnd(raw: string, end: nat, next: nat)
    requires end <= next <= |raw| && raw[next..] == SkipBreaks(raw[end..])
    ensures end < |raw| || next == |raw|
  {
  }

  lemma {:induction false} LineLengthFrom(raw: string, i: nat, end: nat)
    requires i <= end <= |raw| && NoBreaks(raw, i, end) && (end < |raw| ==> IsBreak(raw[end]))
    ensures LineLength(raw[i..]) == end - i
    decreases end - i
  {
    if i < end {
      LineLengthFrom(raw, i + 1, end);
      assert raw[i..][1..] == raw[i + 1..];
    }
  }

  lemma BodyStep(raw: string, i: nat)
    requires i + 1 < |raw|
    ensures Body(raw[i..]) ==
            if raw[i] == '\n' && raw[i + 1] == '\n' then raw[i + 2..]
            else if i + 3 < |raw| && raw[i] == '\r' && raw[i + 1] == '\n' && raw[i + 2] == '\r' && raw[i + 3] == '\n'
            then raw[i + 4..]
            else Body(raw[i + 1..])
  {
    var s := raw[i..];
    assert s[1..] == raw[i + 1..] && s[2..] == raw[i + 2..];
    if |s| >= 4 {
      assert s[4..] == raw[i + 4..];
      assert s[..4] == [raw[i], raw[i + 1], raw[i + 2], raw[i + 3]];
    }
  }

  method FindBody(raw: string) returns (body: string)
    ensures body == Body(raw)
  {
    hide Body;
    var i := 0;
    assert raw[0..] == raw;
    while i + 1 < |raw|
      invariant i <= |raw| && Body(raw[i..]) == Body(raw)
    {
      BodyStep(raw, i);
      if raw[i] == '\n' && raw[i + 1] == '\n' {
        return raw[i + 2..];
      }
      if i + 3 < |raw| && raw[i] == '\r' && raw[i + 1] == '\n' && raw[i + 2] == '\r' && raw[i + 3] == '\n' {
        return raw[i + 4..];
      }
      i := i + 1;
    }
    BodyShort(raw[i..]);
    return [];
  }

  lemma BodyShort(s: string)
    requires |s| < 2
    ensures Body(s) == []
  {
  }

  method TrimText(value: string) returns (r: string)
    ensures r == Trim(value)
  {
    r := value;
    while r != [] && IsWhite(r[0])
      invariant TrimLeft(r, IsWhite) == TrimLeft(value, IsWhite)
      decreases |r|
    {
      r := r[1..];
    }
    while r != [] && IsWhite(r[|r| - 1])
      invariant TrimRight(r, IsWhite) == Trim(value)
      decreases |r|
    {
      r := r[..|r| - 1];
    }
  }
}
