/** Printing a schedule, and parsing what was printed: when the text of a schedule gives the schedule
    back. */
module CronFormat {
  import opened Text
  import opened CronSchedule

  function FormatField(v: int): string {
    if v < 0 then "*" else FormatInt(v)
  }

  function FormatMinute(s: Schedule): string {
    if s.minuteStep > 0 then "*/" + FormatInt(s.minuteStep) else FormatField(s.minute)
  }

  function Joined(a: string, b: string, c: string, d: string, e: string): string {
    a + (" " + (b + (" " + (c + (" " + (d + (" " + e)))))))
  }

  function FormatSchedule(s: Schedule): (r: string)
    ensures r != []
  {
    if s.expression != [] then s.expression
    else
      Joined(FormatMinute(s), FormatField(s.hour), FormatField(s.dayOfMonth), FormatField(s.month),
             FormatField(s.dayOfWeek))
  }

  // ---- Tokens ----------------------------------------------------------------------------------

  /** Printed fields: short, and free of white space and NUL. */
  predicate Word(f: string) {
    0 < |f| <= 4 && forall i :: 0 <= i < |f| ==> !IsSpace(f[i]) && f[i] != '\0'
  }

  predicate NoBlanks(s: string) {
    forall i :: 0 <= i < |s| ==> !IsBlank(s[i])
  }

  lemma {:induction false} TokenLengthOf(a: string, rest: string)
    requires NoBlanks(a) && (rest != [] ==> IsBlank(rest[0]))
    ensures TokenLength(a + rest) == |a|
  {
    if a == [] {
      assert a + rest == rest;
    } else {
      assert (a + rest)[1..] == a[1..] + rest;
      TokenLengthOf(a[1..], rest);
    }
  }

  lemma TokensFirst(a: string, rest: string)
    requires a != [] && NoBlanks(a) && (rest != [] ==> IsBlank(rest[0]))
    ensures Tokens(a + rest) == [a] + Tokens(rest)
  {
    TokenLengthOf(a, rest);
    assert (a + rest)[..|a|] == a && (a + rest)[|a|..] == rest;
  }

  lemma TokensWord(a: string, rest: string)
    requires Word(a)
    ensures Tokens(a + (" " + rest)) == [a] + Tokens(rest)
  {
    TokensFirst(a, " " + rest);
    assert (" " + rest)[1..] == rest;
  }

  lemma JoinedTokens(a: string, b: string, c: string, d: string, e: string)
    requires Word(a) && Word(b) && Word(c) && Word(d) && Word(e)
    ensures Tokens(Joined(a, b, c, d, e)) == [a, b, c, d, e]
  {
    hide Tokens;
    TokensWord(a, b + (" " + (c + (" " + (d + (" " + e))))));
    TokensWord(b, c + (" " + (d + (" " + e))));
    TokensWord(c, d + (" " + e));
    TokensWord(d, e);
    TokensFirst(e, []);
    assert e + [] == e;
    NoTokens();
  }

  lemma NoTokens()
    ensures Tokens([]) == []
  {
  }

  lemma JoinedIsTrim(a: string, b: string, c: string, d: string, e: string)
    requires Word(a) && Word(b) && Word(c) && Word(d) && Word(e)
    ensures var t := Joined(a, b, c, d, e);
            CStr(t) == t && TrimEnd(SkipSpace(t)) == t && |t| <= 24
  {
    var t := Joined(a, b, c, d, e);
    assert '\0' !in t;
    CStrWithoutNul(t);
    assert t[0] == a[0] && t[|t| - 1] == e[|e| - 1];
  }

  // ---- Printed fields read back ----------------------------------------------------------------

  lemma ShortDecimal(v: nat)
    requires v < 100
    ensures |Decimal(v)| <= 2
  {
  }

  lemma FieldReads(v: int, min: int, max: int)
    requires 0 <= min <= max < 100 && FieldIn(v, min, max)
    ensures ParseField(FormatField(v), min, max) == Ok(v) && Word(FormatField(v)) && |FormatField(v)| <= 2
  {
    if v >= 0 {
      ShortDecimal(v);
      FormatIntPlain(v);
      CStrWithoutNul(FormatInt(v));
      ScanFormatInt(v);
      assert FormatInt(v) != "*" && IsDigit(FormatInt(v)[0]);
    }
  }

  /** A number outside the range of its field is refused. */
  lemma OutOfRange(v: int, min: int, max: int)
    requires v < min || v > max
    ensures ParseField(FormatInt(v), min, max) == Err("sc.cron_schedule.field_out_of_range")
  {
    hide ScanInt, CStr;
    FormatIntPlain(v);
    CStrWithoutNul(FormatInt(v));
    ScanFormatInt(v);
    assert FormatInt(v) != [] && FormatInt(v)[0] != '*';
  }

  /** A text of more or fewer than five tokens is refused. */
  lemma FieldCount(expression: string)
    requires |Tokens(CStr(expression))| != 5
    ensures ParseSchedule(expression)
         == Err(if expression == [] then "sc.cron_schedule.invalid_argument" else "sc.cron_schedule.field_count")
  {
  }

  function KeptStep(step: int): int {
    if step > 0 then step else 0
  }

  lemma MinuteReads(s: Schedule)
    requires WellFormed(s)
    ensures ParseMinuteField(FormatMinute(s)) == Ok((s.minute, KeptStep(s.minuteStep))) && Word(FormatMinute(s))
  {
    if s.minuteStep > 0 {
      FieldReads(s.minuteStep, 1, 59);
      assert FormatMinute(s)[2..] == FormatField(s.minuteStep);
    } else {
      FieldReads(s.minute, 0, 59);
    }
  }

  /** A schedule without a text of its own prints to a text that parses to the same fields, a step
      that is not positive becoming zero; the two match at the same times. */
  lemma FormatReads(s: Schedule)
    requires WellFormed(s) && s.expression == []
    ensures ParseSchedule(FormatSchedule(s))
         == Ok(s.(minuteStep := KeptStep(s.minuteStep), expression := FormatSchedule(s)))
    ensures forall when :: Matches(s.(minuteStep := KeptStep(s.minuteStep), expression := FormatSchedule(s)), when)
                        == Matches(s, when)
  {
    hide ParseField, ParseMinuteField, FormatField, FormatMinute, Joined, Tokens, CStr, TrimEnd, SkipSpace, Word;
    MinuteReads(s);
    FieldReads(s.hour, 0, 23);
    FieldReads(s.dayOfMonth, 1, 31);
    FieldReads(s.month, 1, 12);
    FieldReads(s.dayOfWeek, 0, 6);
    var minute, hour, day := FormatMinute(s), FormatField(s.hour), FormatField(s.dayOfMonth);
    JoinedTokens(minute, hour, day, FormatField(s.month), FormatField(s.dayOfWeek));
    JoinedIsTrim(minute, hour, day, FormatField(s.month), FormatField(s.dayOfWeek));
  }

  // ---- A parsed schedule reads back from its own text ------------------------------------------

  /** A field that parses with white space in front parses to the same without it. */
  lemma SpacedField(f: string)
    requires f != [] && IsSpace(f[0]) && '\0' !in f && ParseMinuteField(f).Ok?
    ensures |f| > 1 && ParseMinuteField(f[1..]) == ParseMinuteField(f)
  {
    hide SkipSpace, LeadingDigits, DigitsValue, CStr;
    CStrWithoutNul(f);
    CStrWithoutNul(f[1..]);
    SkipOneSpace(f);
    NoSpaceLeft();
    assert |f| > 1;
    if f[1] == '*' {
      StarIsNoNumber(f[1..]);
    }
  }

  lemma SkipOneSpace(f: string)
    requires f != [] && IsSpace(f[0])
    ensures SkipSpace(f) == SkipSpace(f[1..])
  {
  }

  lemma NoSpaceLeft()
    ensures SkipSpace([]) == [] && LeadingDigits([]) == 0
  {
  }

  lemma StarIsNoNumber(f: string)
    requires f != [] && f[0] == '*'
    ensures SkipSpace(f) == f && LeadingDigits(f) == 0
  {
  }

  lemma {:induction false} LeadingSpace(c: string)
    requires '\0' !in c && ParseTokens(Tokens(c)).Ok?
    ensures ParseTokens(Tokens(SkipSpace(c))) == ParseTokens(Tokens(c))
  {
    hide ParseField, ParseMinuteField;
    if c != [] && IsSpace(c[0]) {
      if !IsBlank(c[0]) {
        TokensShift(c);
        SpacedField(Tokens(c)[0]);
      }
      LeadingSpace(c[1..]);
    }
  }

  /** Dropping the first byte of the first token. */
  lemma TokensShift(c: string)
    requires c != [] && !IsBlank(c[0]) && '\0' !in c
    ensures Tokens(c) != [] && Tokens(c)[0] != [] && Tokens(c)[0][0] == c[0] && '\0' !in Tokens(c)[0]
    ensures |Tokens(c)[0]| > 1 ==> Tokens(c[1..]) == [Tokens(c)[0][1..]] + Tokens(c)[1..]
  {
    var k := TokenLength(c);
    assert TokenLength(c[1..]) == k - 1;
    assert c[1..][k - 1..] == c[k..] && c[1..][..k - 1] == c[..k][1..];
  }

  lemma ScanEndsInDigit(f: string)
    requires ScanInt(f).Scanned? && ScanInt(f).rest == []
    ensures f != [] && IsDigit(f[|f| - 1])
  {
    SkipSpaceLast(f);
  }

  lemma {:induction false} SkipSpaceLast(f: string)
    ensures SkipSpace(f) != [] ==> f != [] && SkipSpace(f)[|SkipSpace(f)| - 1] == f[|f| - 1]
    ensures f != [] && !IsSpace(f[|f| - 1]) ==> SkipSpace(f) != []
    ensures SkipSpace(f) != [] ==> !IsSpace(SkipSpace(f)[0])
  {
    if f != [] && IsSpace(f[0]) {
      SkipSpaceLast(f[1..]);
    }
  }

  /** A field never ends in white space. */
  lemma FieldEnds(f: string, min: int, max: int)
    requires '\0' !in f && ParseField(f, min, max).Ok?
    ensures f != [] && !IsSpace(f[|f| - 1])
  {
    hide ScanInt;
    CStrWithoutNul(f);
    if f != "*" {
      ScanEndsInDigit(f);
    }
  }

  lemma {:induction false} LastToken(c: string)
    requires c != [] && !IsBlank(c[|c| - 1]) && '\0' !in c
    ensures var ts := Tokens(c);
            && ts != [] && ts[|ts| - 1] != [] && '\0' !in ts[|ts| - 1]
            && ts[|ts| - 1][|ts[|ts| - 1]| - 1] == c[|c| - 1]
    decreases |c|
  {
    if IsBlank(c[0]) {
      LastToken(c[1..]);
    } else if c[TokenLength(c)..] != [] {
      LastToken(c[TokenLength(c)..]);
    }
  }

  lemma {:induction false} TokenLengthShorter(c: string)
    requires c != [] && IsBlank(c[|c| - 1])
    ensures TokenLength(c) < |c| && TokenLength(c[..|c| - 1]) == TokenLength(c)
  {
    if !IsBlank(c[0]) {
      TokenLengthShorter(c[1..]);
      assert c[..|c| - 1][1..] == c[1..][..|c[1..]| - 1];
    }
  }

  lemma {:induction false} TrailingBlank(c: string)
    requires c != [] && IsBlank(c[|c| - 1])
    ensures Tokens(c[..|c| - 1]) == Tokens(c)
    decreases |c|
  {
    var n := |c| - 1;
    if |c| == 1 {
      assert c[1..] == [] && c[..n] == [];
    } else if IsBlank(c[0]) {
      TrailingBlank(c[1..]);
      assert c[..n][1..] == c[1..][..|c[1..]| - 1];
    } else {
      TokenLengthShorter(c);
      var k := TokenLength(c);
      TrailingBlank(c[k..]);
      assert c[..n][k..] == c[k..][..|c[k..]| - 1] && c[..n][..k] == c[..k];
    }
  }

  lemma {:induction false} TrailingSpace(c: string)
    requires '\0' !in c && ParseTokens(Tokens(c)).Ok?
    ensures ParseTokens(Tokens(TrimEnd(c))) == ParseTokens(Tokens(c))
    decreases |c|
  {
    hide ParseField, ParseMinuteField, Tokens;
    if c != [] && IsSpace(c[|c| - 1]) {
      if IsBlank(c[|c| - 1]) {
        TrailingBlank(c);
        TrailingSpace(c[..|c| - 1]);
      } else {
        LastToken(c);
        FieldEnds(Tokens(c)[4], 0, 6);
      }
    }
  }

  lemma {:induction false} TrimEndStart(t: string)
    requires t != [] && !IsSpace(t[0])
    ensures TrimEnd(t) != [] && TrimEnd(t)[0] == t[0] && TrimEnd(t) <= t
    ensures !IsSpace(TrimEnd(t)[|TrimEnd(t)| - 1])
    ensures TrimEnd(t) == t <==> !IsSpace(t[|t| - 1])
    decreases |t|
  {
    if IsSpace(t[|t| - 1]) {
      TrimEndStart(t[..|t| - 1]);
    }
  }

  lemma {:induction false} SkipSpaceConcat(c: string, rest: string)
    requires rest != [] && !IsSpace(rest[0])
    ensures SkipSpace(c + rest) == SkipSpace(c) + rest
  {
    if c == [] {
      assert c + rest == rest;
    } else {
      assert (c + rest)[1..] == c[1..] + rest;
      SkipSpaceConcat(c[1..], rest);
    }
  }

  lemma {:induction false} TrimEndKeeps(y: string, rest: string)
    requires rest != [] && !IsSpace(rest[0])
    ensures y + [rest[0]] <= TrimEnd(y + rest)
    decreases |rest|
  {
    if |rest| > 1 {
      assert (y + rest)[..|y + rest| - 1] == y + rest[..|rest| - 1];
      TrimEndKeeps(y, rest[..|rest| - 1]);
    }
  }

  lemma {:induction false} SkipSpaceKeeps(c: string)
    requires '\0' !in c
    ensures '\0' !in SkipSpace(c)
  {
    if c != [] {
      SkipSpaceKeeps(c[1..]);
    }
  }

  lemma CStrBefore(t: string, y: string)
    requires '\0' !in y && y + ['\0'] <= t
    ensures CStr(t) == y
  {
    assert t[..|y|] == y && t[|y|] == '\0';
    IndexOfUnique(t, '\0', |y|);
  }

  lemma CutByNul(e: string)
    requires '\0' in e
    ensures |CStr(e)| < |e| && e[|CStr(e)|] == '\0' && e == CStr(e) + e[|CStr(e)|..]
  {
  }

  /** The text a parsed schedule records: trimmed on both sides, unless a NUL byte cuts it short, which
      leaves its trailing white space. */
  lemma RecordedText(e: string)
    requires SkipSpace(CStr(e)) != []
    ensures CStr(TrimEnd(SkipSpace(e))) == if '\0' in e then SkipSpace(CStr(e)) else TrimEnd(SkipSpace(e))
    ensures '\0' !in e ==> CStr(e) == e
    ensures |SkipSpace(CStr(e))| <= |TrimEnd(SkipSpace(e))| || '\0' !in e
  {
    hide CStr, SkipSpace, TrimEnd;
    var c := CStr(e);
    var y := SkipSpace(c);
    CStrHasNoNul(e);
    SkipSpaceKeeps(c);
    if '\0' in e {
      CutByNul(e);
      SkipSpaceConcat(c, e[|c|..]);
      TrimEndKeeps(y, e[|c|..]);
      CStrBefore(TrimEnd(SkipSpace(e)), y);
    } else {
      CStrWithoutNul(e);
      SkipSpaceLast(e);
      TrimEndStart(y);
      CStrWithoutNul(TrimEnd(y));
    }
  }

  /** What a text without leading white space parses to. */
  lemma ParseUnspaced(y: string)
    requires y != [] && '\0' !in y && !IsSpace(y[0]) && ParseTokens(Tokens(y)).Ok? && |TrimEnd(y)| < MAX_EXPRESSION
    ensures ParseSchedule(y) == Ok(ParseTokens(Tokens(y)).value.(expression := TrimEnd(y)))
  {
    hide ParseTokens, Tokens, TrimEnd;
    CStrWithoutNul(y);
    TrimEndStart(y);
    CStrWithoutNul(TrimEnd(y));
  }

  /** A parsed schedule prints as the text it recorded, and that text parses to the same schedule
      exactly when the source text has no NUL byte, or no white space right before its first one. */
  lemma ParsedReads(e: string, s: Schedule)
    requires ParseSchedule(e) == Ok(s)
    ensures s.expression != [] && CStr(e) != []
    ensures ParseSchedule(FormatSchedule(s)) == Ok(s) <==> ('\0' !in e || !IsSpace(CStr(e)[|CStr(e)| - 1]))
  {
    hide ParseTokens, Tokens, TrimEnd, SkipSpace, CStr;
    var c := CStr(e);
    CStrHasNoNul(e);
    LeadingSpace(c);
    var y := SkipSpace(c);
    SkipSpaceKeeps(c);
    SkipSpaceLast(c);
    SomeTokens(y);
    RecordedText(e);
    TrimEndStart(y);
    if '\0' in e {
      ParseUnspaced(y);
    } else {
      var z := TrimEnd(y);
      TrailingSpace(y);
      TrimEndStart(z);
      ParseUnspaced(z);
    }
  }

  lemma CStrHasNoNul(e: string)
    ensures '\0' !in CStr(e)
  {
  }

  lemma SomeTokens(y: string)
    requires ParseTokens(Tokens(y)).Ok?
    ensures y != []
  {
    NoTokens();
  }
}
