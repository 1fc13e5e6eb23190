/** Which schema field a path belongs to, which texts a field takes, and the keys of refused writes. */
module ConfigFields {
  import opened Text
  import opened ConfigState

  // ---- Patterns --------------------------------------------------------------------------------

  lemma {:induction false} FindTextAt(before: string, after: string)
    requires '<' !in before
    ensures FindText(before + "<name>" + after, "<name>") == Some(|before|)
  {
    var s := before + "<name>" + after;
    if before == [] {
      assert s[..6] == "<name>";
    } else {
      assert s[0] == before[0] && s[1..] == before[1..] + "<name>" + after;
      FindTextAt(before[1..], after);
    }
  }

  lemma PatternOpens(s: string)
    requires HasPrefix(s, "<name>")
    ensures '<' in s
  {
    assert s[0] == s[..6][0];
  }

  lemma {:induction false} NoFindText(s: string)
    requires '<' !in s
    ensures FindText(s, "<name>") == None
  {
    if HasPrefix(s, "<name>") {
      PatternOpens(s);
    }
    if s != [] {
      NoFindText(s[1..]);
    }
  }

  /** The path fills the gap of the pattern with one segment. */
  predicate Fills(path: string, before: string, name: string, after: string) {
    name != [] && '.' !in name && path == before + name + after
  }

  /** A pattern stands for the paths with a segment in its gap; a path without a gap is no pattern. */
  lemma PatternIff(path: string, before: string, after: string)
    requires '<' !in before
    ensures PatternMatches(path, before + "<name>" + after) <==> exists name :: Fills(path, before, name, after)
    ensures !PatternMatches(path, before)
  {
    hide FindText;
    var pattern := before + "<name>" + after;
    FindTextAt(before, after);
    NoFindText(before);
    assert pattern[|before| + 6..] == after && pattern[..|before|] == before;
    if PatternMatches(path, pattern) {
      var name := path[|before|..|path| - |after|];
      assert path == path[..|before|] + name + path[|path| - |after|..];
      assert Fills(path, before, name, after);
    }
    forall name | Fills(path, before, name, after)
      ensures PatternMatches(path, pattern)
    {
      assert path[..|before|] == before && path[|path| - |after|..] == after;
      assert path[|before|..|path| - |after|] == name;
    }
  }

  // ---- Lookup ----------------------------------------------------------------------------------

  predicate Names(fields: seq<Field>, path: string) {
    exists i :: 0 <= i < |fields| && fields[i].path == path
  }

  predicate Fits(fields: seq<Field>, path: string) {
    exists i :: 0 <= i < |fields| && PatternMatches(path, fields[i].path)
  }

  lemma {:induction false} FirstNamed(front: seq<Field>, f: Field, back: seq<Field>)
    requires !Names(front, f.path)
    ensures FirstExact(front + [f] + back, f.path) == Some(f)
  {
    var schema := front + [f] + back;
    if front != [] {
      assert schema[0] == front[0] && schema[1..] == front[1..] + [f] + back;
      assert forall i :: 0 <= i < |front[1..]| ==> front[1..][i] == front[i + 1];
      FirstNamed(front[1..], f, back);
    }
  }

  lemma {:induction false} NoneNamed(fields: seq<Field>, path: string)
    requires !Names(fields, path)
    ensures FirstExact(fields, path) == None
  {
    if fields != [] {
      assert forall i :: 0 <= i < |fields[1..]| ==> fields[1..][i] == fields[i + 1];
      NoneNamed(fields[1..], path);
    }
  }

  lemma {:induction false} FirstFitting(front: seq<Field>, f: Field, back: seq<Field>, path: string)
    requires !Fits(front, path) && PatternMatches(path, f.path)
    ensures FirstPattern(front + [f] + back, path) == Some(f)
  {
    hide PatternMatches;
    var schema := front + [f] + back;
    if front != [] {
      assert schema[0] == front[0] && schema[1..] == front[1..] + [f] + back;
      assert forall i :: 0 <= i < |front[1..]| ==> front[1..][i] == front[i + 1];
      FirstFitting(front[1..], f, back, path);
    }
  }

  lemma {:induction false} NoneFitting(fields: seq<Field>, path: string)
    requires !Fits(fields, path)
    ensures FirstPattern(fields, path) == None
  {
    hide PatternMatches;
    if fields != [] {
      assert forall i :: 0 <= i < |fields[1..]| ==> fields[1..][i] == fields[i + 1];
      NoneFitting(fields[1..], path);
    }
  }

  /** The first field of that very path is found; without one, the first pattern the path fits; else none. */
  lemma LookupFinds(front: seq<Field>, f: Field, back: seq<Field>, path: string)
    ensures f.path == path && !Names(front, path) ==> Lookup(front + [f] + back, path) == Some(f)
    ensures !Names(front + [f] + back, path) && !Fits(front, path) && PatternMatches(path, f.path) ==>
              Lookup(front + [f] + back, path) == Some(f)
    ensures !Names(front, path) && !Fits(front, path) ==> Lookup(front, path) == None
  {
    hide PatternMatches, Names, Fits, FirstExact, FirstPattern;
    if f.path == path && !Names(front, path) {
      FirstNamed(front, f, back);
    } else if !Names(front + [f] + back, path) && !Fits(front, path) && PatternMatches(path, f.path) {
      NoneNamed(front + [f] + back, path);
      FirstFitting(front, f, back, path);
    }
    if !Names(front, path) && !Fits(front, path) {
      NoneNamed(front, path);
      NoneFitting(front, path);
    }
  }

  // ---- Server paths ----------------------------------------------------------------------------

  ghost predicate Indexes(path: string, digits: string, index: nat, field: string) {
    && digits != [] && AllDigits(digits) && DigitsValue(digits) == index && field != []
    && path == "mcp.servers." + (digits + ("." + field))
  }

  /** A server path has an index in `size_t`, in any spelling, and a field that is not empty. */
  lemma ServerPathIff(path: string, index: nat, field: string)
    ensures McpPath(path) == Some(ServerPath(index, field)) <==>
              index <= 0xFFFF_FFFF_FFFF_FFFF && exists digits :: Indexes(path, digits, index, field)
  {
    hide LeadingDigits, DigitsValue;
    if McpPath(path) == Some(ServerPath(index, field)) {
      var rest := path[|MCP_PREFIX|..];
      var k := LeadingDigits(rest);
      assert rest == rest[..k] + ("." + rest[k + 1..]);
      assert path == path[..|MCP_PREFIX|] + rest;
      assert Indexes(path, rest[..k], index, field);
    }
    forall digits | Indexes(path, digits, index, field) && index <= SIZE_MAX
      ensures McpPath(path) == Some(ServerPath(index, field))
    {
      ServerKeyReads(digits, field);
    }
  }

  // ---- Integer texts ---------------------------------------------------------------------------

  predicate AllSpace(s: string) {
    forall i :: 0 <= i < |s| ==> s[i] == ' ' || 9 <= s[i] as int <= 13
  }

  /** White space, at most one sign, and digits up to the end or the first NUL byte. */
  predicate Spells(text: string, spaces: string, sign: string, digits: string) {
    && AllSpace(spaces) && sign in {"", "-", "+"} && digits != [] && AllDigits(digits)
    && CStr(text) == spaces + sign + digits
  }

  lemma {:induction false} SkipsSpace(spaces: string, rest: string)
    requires AllSpace(spaces) && (rest == [] || !IsSpace(rest[0]))
    ensures SkipSpace(spaces + rest) == rest
  {
    if spaces == [] {
      assert spaces + rest == rest;
    } else {
      assert (spaces + rest)[1..] == spaces[1..] + rest;
      SkipsSpace(spaces[1..], rest);
    }
  }

  /** Cuts off the leading white space. */
  lemma {:induction false} SpacePrefix(s: string) returns (spaces: string)
    ensures AllSpace(spaces) && s == spaces + SkipSpace(s)
  {
    spaces := [];
    if s != [] && IsSpace(s[0]) {
      var more := SpacePrefix(s[1..]);
      spaces := [s[0]] + more;
      assert s == [s[0]] + s[1..];
    }
  }

  lemma SpelledScans(text: string, spaces: string, sign: string, digits: string)
    requires Spells(text, spaces, sign, digits)
    ensures ScanInt(CStr(text)) ==
            Scanned(if sign == "-" then -(DigitsValue(digits) as int) else DigitsValue(digits), [])
  {
    hide DigitsValue, LeadingDigits, SkipSpace, CStr;
    assert IsDigit(digits[0]);
    assert CStr(text) == spaces + (sign + digits);
    SkipsSpace(spaces, sign + digits);
    AllLeadingDigits(digits);
    assert digits[..|digits|] == digits && sign + digits == if sign == "" then digits else [sign[0]] + digits;
    assert sign != "" ==> (sign + digits)[1..] == digits;
  }

  /** An integer field takes a text under 64 bytes that spells an integer, and clamps it to 64 bits. */
  lemma IntegerIff(text: string)
    ensures IntFromText(text).Some? <==>
              |text| < 64 && exists spaces, sign, digits :: Spells(text, spaces, sign, digits)
    ensures forall spaces, sign, digits :: Spells(text, spaces, sign, digits) && |text| < 64 ==>
              IntFromText(text) == Some(Clamped(if sign == "-" then -(DigitsValue(digits) as int)
                                                else DigitsValue(digits)))
  {
    hide DigitsValue, LeadingDigits, SkipSpace, Spells, CStr;
    if IntFromText(text).Some? {
      var spaces := SpacePrefix(CStr(text));
      var t := SkipSpace(CStr(text));
      var sign := if t != [] && (t[0] == '-' || t[0] == '+') then [t[0]] else [];
      var digits := t[|sign|..];
      var k := LeadingDigits(digits);
      assert digits[k..] == [] && digits[..k] == digits;
      assert t == sign + digits && CStr(text) == spaces + sign + digits;
      SpelledBy(text, spaces, sign, digits);
    }
    forall spaces, sign, digits | Spells(text, spaces, sign, digits)
      ensures text != [] && AllDigits(digits)
    {
      SpelledIsSome(text, spaces, sign, digits);
    }
    forall spaces, sign, digits | Spells(text, spaces, sign, digits)
      ensures ScanInt(CStr(text)) ==
              Scanned(if sign == "-" then -(DigitsValue(digits) as int) else DigitsValue(digits), [])
    {
      SpelledScans(text, spaces, sign, digits);
    }
  }

  lemma SpelledBy(text: string, spaces: string, sign: string, digits: string)
    requires AllSpace(spaces) && sign in {"", "-", "+"} && digits != [] && AllDigits(digits)
    requires CStr(text) == spaces + sign + digits
    ensures Spells(text, spaces, sign, digits)
  {
  }

  lemma SpelledIsSome(text: string, spaces: string, sign: string, digits: string)
    requires Spells(text, spaces, sign, digits)
    ensures text != [] && AllDigits(digits)
  {
  }

  function Clamped(v: int): int64 {
    if v >= 9_223_372_036_854_775_807 then 9_223_372_036_854_775_807
    else if v <= -9_223_372_036_854_775_808 then -9_223_372_036_854_775_808
    else v
  }

  // ---- Refusals --------------------------------------------------------------------------------

  ghost predicate Known(path: string) {
    || (exists section, rest :: section in KNOWN_PREFIXES && rest != [] && path == section + rest)
    || path in KNOWN_PATHS
  }

  /** A text written to a schema field is refused when it has not the type of the field, or when the
      field is one the setter does not know. */
  lemma RefusedKey(schema: seq<Field>, s: State, path: string, text: string, kind: SourceKind)
    requires path != "schema_version" && Lookup(schema, path).Some?
    ensures var r := SetProp(schema, s, path, text, kind); var field := Lookup(schema, path).value;
            && (field.kind.IntField? && IntFromText(text).None? ==> r == Outcome(s, Some("sc.config.invalid_type")))
            && (field.kind.BoolField? && text !in {"true", "false"} ==>
                  r == Outcome(s, Some("sc.config.invalid_type")))
            && (field.kind.StringField? && MirrorAt(path).None? && !Known(path) ==>
                  r == Outcome(s, Some("sc.config.unknown_field")))
  {
    hide Lookup, MirrorAt, IntFromText, KNOWN_PREFIXES, KNOWN_PATHS, McpPath;
    if KnownPath(path) && path !in KNOWN_PATHS {
      var p :| p in KNOWN_PREFIXES && |path| > |p| && HasPrefix(path, p);
      assert path == p + path[|p|..];
    }
  }

  /** The old spelling of the schema version writes the new path. */
  lemma OldSpelling(schema: seq<Field>, s: State, text: string, kind: SourceKind)
    ensures SetProp(schema, s, "schema_version", text, kind) == SetProp(schema, s, "schema.version", text, kind)
    ensures SetProp(schema, s, "schema.version", text, kind).error.None? ==>
              "schema.version" in SetProp(schema, s, "schema_version", text, kind).state.values
  {
    hide EffectOf, ApplyEffect;
  }
}
