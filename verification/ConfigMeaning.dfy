/** What a configuration write comes to for its reader: the typed field, the server record, and the
    layer that wins, told from the written value itself. */
module ConfigMeaning {
  import opened Text
  import opened ConfigState
  import opened ConfigLayers

  // ---- Scalars as text -------------------------------------------------------------------------

  function Pow10(k: nat): nat {
    if k == 0 then 1 else 10 * Pow10(k - 1)
  }

  lemma {:induction false} DecimalLength(n: nat, k: nat)
    requires k > 0 && n < Pow10(k)
    ensures |Decimal(n)| <= k
    decreases k
  {
    if n >= 10 {
      DecimalLength(n / 10, k - 1);
    }
  }

  lemma Int64IsShort()
    ensures 0x8000_0000_0000_0000 < Pow10(20)
  {
    assert Pow10(4) == 10_000;
    assert Pow10(8) == 100_000_000;
    assert Pow10(12) == 1_000_000_000_000;
    assert Pow10(16) == 10_000_000_000_000_000;
    assert Pow10(20) == 100_000_000_000_000_000_000;
  }

  /** Every 64-bit integer survives being stored as text. */
  lemma IntReadsBack(i: int64)
    ensures IntFromText(FormatInt(i)) == Some(i)
  {
    hide Decimal, Pow10, ScanInt, CStr;
    Int64IsShort();
    var n: int := i;
    DecimalLength(if n < 0 then -n else n, 20);
    FormatIntPlain(i);
    CStrWithoutNul(FormatInt(i));
    ScanFormatInt(i);
  }

  /** The two flag texts, and no others. */
  lemma FlagTexts(text: string, b: bool)
    ensures BoolFromText(text) == Some(b) <==> text == (if b then "true" else "false")
  {
  }

  // ---- Typed fields ----------------------------------------------------------------------------

  predicate TypedFor(m: Mirror, v: Toml) {
    match KindOf(m)
    case BoolField => v.TomlBool?
    case IntField => v.TomlInteger?
    case StringField => v.TomlString? || v.TomlArray? || v.TomlRaw?
  }

  /** The value of a field, from the TOML value written to it. */
  function Meant(m: Mirror, v: Toml): Value {
    match v
    case TomlBool(b) => BoolValue(b)
    case TomlInteger(i) => IntValue(if m.SchemaVersion? then i % 0x1_0000_0000 else i)
    case TomlString(t) => TextValue(t)
    case TomlArray(t) => TextValue(t)
    case TomlRaw(t) => TextValue(t)
  }

  lemma MirrorLookup(schema: seq<Field>, m: Mirror)
    requires MirrorsListed(schema)
    ensures Lookup(schema, PathOf(m)).Some? && Lookup(schema, PathOf(m)).value.kind == KindOf(m)
    ensures Normalize(PathOf(m)) == PathOf(m) && MirrorAt(PathOf(m)) == Some(m)
  {
    hide PathOf, MirrorAt, KindOf;
    PathBelongs(m);
    MirrorPathIsNormal(m);
  }

  /** An entry at a mirrored path is accepted exactly when its value has the type of the field, and the
      field then has that value. */
  lemma EntryAtMirror(schema: seq<Field>, s: State, m: Mirror, v: Toml, kind: SourceKind, sourcePath: string)
    requires MirrorsListed(schema)
    ensures var r := ApplyEntry(schema, s, Entry(PathOf(m), v), kind, sourcePath);
            && (r.error.None? <==> TypedFor(m, v))
            && (r.error.None? ==> MirrorValue(r.state, m) == Meant(m, v))
            && (r.error.Some? ==> r == Outcome(s, Some("sc.config.invalid_type")))
  {
    hide PathOf, MirrorAt, Lookup, IntFromText, KindOf, FormatInt, KnownPath, McpPath, MirrorsListed, Redefer,
         BoolFromText;
    MirrorLookup(schema, m);
    if v.TomlInteger? {
      IntReadsBack(v.i);
    }
    FlagTexts("true", true);
    FlagTexts("false", false);
    FlagTexts("true", false);
    FlagTexts("false", true);
  }

  const NUMBER_PATHS: set<string> := {
    "schema.version", "reliability.max_retries", "reliability.retry_backoff_ms", "reliability.timeout_ms",
    "gateway.port"}

  const FLAG_PATHS: set<string> := {"proxy.enabled", "mcp.deferred_loading"}

  lemma PathKinds(m: Mirror)
    ensures PathOf(m) in NUMBER_PATHS <==> KindOf(m).IntField?
    ensures PathOf(m) in FLAG_PATHS <==> KindOf(m).BoolField?
  {
  }

  /** Five mirrored paths take integers only, two take flags only, and the others no scalar of these two
      types. */
  lemma ScalarPaths(schema: seq<Field>, s: State, m: Mirror, b: bool, i: int64, kind: SourceKind, sourcePath: string)
    requires MirrorsListed(schema)
    ensures var r := ApplyEntry(schema, s, Entry(PathOf(m), TomlInteger(i)), kind, sourcePath);
            && (r.error.None? <==> PathOf(m) in NUMBER_PATHS)
            && (r.error.None? && PathOf(m) != "schema.version" ==> MirrorValue(r.state, m) == IntValue(i))
    ensures var r := ApplyEntry(schema, s, Entry(PathOf(m), TomlBool(b)), kind, sourcePath);
            && (r.error.None? <==> PathOf(m) in FLAG_PATHS)
            && (r.error.None? ==> MirrorValue(r.state, m) == BoolValue(b))
  {
    hide ApplyEntry, MirrorsListed, MirrorValue, PathOf, KindOf, NUMBER_PATHS, FLAG_PATHS;
    EntryAtMirror(schema, s, m, TomlInteger(i), kind, sourcePath);
    EntryAtMirror(schema, s, m, TomlBool(b), kind, sourcePath);
    PathKinds(m);
    VersionPath(m);
  }

  lemma VersionPath(m: Mirror)
    ensures m.SchemaVersion? <==> PathOf(m) == "schema.version"
  {
  }

  /** A field nobody has written, and one whose path the schema lists with another type, is zero. */
  lemma ZeroFields(schema: seq<Field>, s: State, m: Mirror, text: string, kind: SourceKind)
    requires PathOf(m) in NUMBER_PATHS || PathOf(m) in FLAG_PATHS
    ensures var zero := if PathOf(m) in FLAG_PATHS then BoolValue(false) else IntValue(0);
            && MirrorValue(INITIAL, m) == zero
            && (Lookup(schema, PathOf(m)).Some? && Lookup(schema, PathOf(m)).value.kind.StringField? ==>
                  var r := SetProp(schema, s, PathOf(m), text, kind);
                  r.error.None? && MirrorValue(r.state, m) == zero)
  {
    hide PathOf, Lookup, KindOf, IntFromText, BoolFromText, MirrorAt, NUMBER_PATHS, FLAG_PATHS, McpPath, KnownPath;
    PathKinds(m);
    PathBelongs(m);
    MirrorPathIsNormal(m);
  }

  /** Two plain instances. */
  lemma ProxyAndPort(schema: seq<Field>, s: State, b: bool, i: int64, kind: SourceKind, sourcePath: string)
    requires MirrorsListed(schema)
    ensures var r := ApplyEntry(schema, s, Entry("proxy.enabled", TomlBool(b)), kind, sourcePath);
            r.error.None? && MirrorValue(r.state, ProxyEnabled) == BoolValue(b)
    ensures var r := ApplyEntry(schema, s, Entry("gateway.port", TomlInteger(i)), kind, sourcePath);
            r.error.None? && MirrorValue(r.state, GatewayPort) == IntValue(i)
  {
    hide ApplyEntry, MirrorsListed, MirrorValue;
    EntryAtMirror(schema, s, ProxyEnabled, TomlBool(b), kind, sourcePath);
    EntryAtMirror(schema, s, GatewayPort, TomlInteger(i), kind, sourcePath);
  }

  /** A text written to a flag is accepted exactly when it is `true` or `false`, and says which. */
  lemma TextAtFlag(schema: seq<Field>, s: State, m: Mirror, text: string, kind: SourceKind)
    requires MirrorsListed(schema) && KindOf(m).BoolField?
    ensures var r := SetProp(schema, s, PathOf(m), text, kind);
            && (r.error.None? <==> text == "true" || text == "false")
            && (r.error.None? ==> MirrorValue(r.state, m) == BoolValue(text == "true"))
  {
    hide PathOf, MirrorAt, Lookup, KindOf, KnownPath, McpPath, MirrorsListed, Redefer, BoolFromText;
    MirrorLookup(schema, m);
    FlagTexts(text, true);
    FlagTexts(text, false);
    if BoolFromText(text).Some? {
      FlagTexts(text, BoolFromText(text).value);
    }
  }

  lemma SectionEnds(section: string)
    requires section in KNOWN_PREFIXES
    ensures section != [] && section[|section| - 1] == '.'
  {
  }

  lemma SectionPath(section: string, rest: string)
    requires section in KNOWN_PREFIXES && rest != []
    ensures KnownPath(section + rest) && Normalize(section + rest) == section + rest
  {
    SectionEnds(section);
    assert HasPrefix(section + rest, section);
    assert '.' !in "schema_version";
    assert (section + rest)[|section| - 1] == '.';
  }

  /** A schema field in one of the open sections takes any text of its type, and has no typed field to set
      unless its path is mirrored. */
  lemma SectionField(schema: seq<Field>, s: State, section: string, rest: string, text: string, kind: SourceKind)
    requires section in KNOWN_PREFIXES && rest != [] && Lookup(schema, section + rest).Some?
    ensures var r := SetProp(schema, s, section + rest, text, kind);
            && (r.error.None? <==> TypeAccepts(Lookup(schema, section + rest).value.kind, text))
            && (r.error.None? ==> r.state.values == s.values[section + rest := text])
            && (MirrorAt(section + rest).None? ==> r.state.mirrors == s.mirrors && r.state.servers == s.servers)
  {
    hide Lookup, TypeAccepts, MirrorAt, McpPath, Label, KindName, KnownPath, KNOWN_PREFIXES, Normalize, Redefer,
         Assigned;
    SectionPath(section, rest);
  }

  // ---- Servers ---------------------------------------------------------------------------------

  /** The server record with the named field set to what the text says. */
  predicate FieldSays(was: Server, now: Server, field: string, text: string) {
    && (field == "name" ==> now == was.(name := text))
    && (field == "command" ==> now == was.(command := text))
    && (field == "args" ==> now == was.(args := text))
    && (field == "url" ==> now == was.(url := text))
    && (field == "headers" ==> now == was.(headers := text))
    && (field == "transport" ==>
          now == was.(transport := now.transport)
          && (now.transport.Stdio? <==> text == "stdio") && (now.transport.Sse? <==> text == "sse")
          && (now.transport.Http? <==> text == "http"))
    && (field == "enabled" ==> now == was.(enabled := text == "true"))
    && (field == "deferred_loading" ==> now == was.(deferred := text == "true", deferredSet := true))
  }

  /** The table, grown with fresh servers as far as it must, but for server `k`. */
  ghost predicate OthersStand(grown: seq<Server>, now: seq<Server>, k: nat) {
    && k < |grown| == |now|
    && forall i :: 0 <= i < |grown| && i != k ==> now[i] == grown[i]
  }

  predicate IsFlag(field: string) {
    field == "enabled" || field == "deferred_loading"
  }

  /** A write to a field of a server changes that field of that server alone, in a table grown with
      fresh servers as far as it must; a flag takes `true` and `false` only. */
  lemma ServerWrite(schema: seq<Field>, s: State, digits: string, field: string, text: string, kind: SourceKind)
    requires digits != [] && AllDigits(digits) && DigitsValue(digits) <= SIZE_MAX && field != []
    requires Lookup(schema, ServerKey(digits, field)).None?
    ensures var r := SetProp(schema, s, ServerKey(digits, field), text, kind);
            var grown := Grow(s.servers, DeferredFlag(s), DigitsValue(digits) + 1);
            && (r.error.None? <==> (IsFlag(field) ==> text == "true" || text == "false"))
            && OthersStand(grown, r.state.servers, DigitsValue(digits))
            && (r.error.None? ==>
                  FieldSays(grown[DigitsValue(digits)], r.state.servers[DigitsValue(digits)], field, text))
            && (r.error.Some? ==> r.state.servers == grown)
  {
    hide McpPath, ServerKey, Lookup, Grow, DeferredFlag, DigitsValue, Label, KindName, FieldSays, SetSlot, SlotOf,
         SlotValueOf;
    ServerKeyReads(digits, field);
    ServerKeyIsNormal(digits, field);
    var k := DigitsValue(digits);
    SlotSays(Grow(s.servers, DeferredFlag(s), k + 1)[k], field, text);
  }

  /** A server first named by a write of its name is enabled, follows the global flag, and has nothing else. */
  lemma FirstNaming(schema: seq<Field>, s: State, digits: string, text: string, kind: SourceKind)
    requires digits != [] && AllDigits(digits) && |s.servers| <= DigitsValue(digits) <= SIZE_MAX
    requires Lookup(schema, ServerKey(digits, "name")).None?
    ensures var r := SetProp(schema, s, ServerKey(digits, "name"), text, kind);
            && r.error.None? && |r.state.servers| == DigitsValue(digits) + 1
            && r.state.servers[DigitsValue(digits)] ==
                 Server(text, UnknownTransport, "", "", "", "", true, MirrorValue(s, McpDeferred) == BoolValue(true),
                        false)
  {
    hide SetProp, ServerKey, Lookup, DigitsValue, AllDigits;
    ServerWrite(schema, s, digits, "name", text, kind);
  }

  /** The slot of a field name, set to the converted text. */
  lemma SlotSays(was: Server, field: string, text: string)
    ensures SlotValueOf(SlotOf(field), text).None? <==> IsFlag(field) && text != "true" && text != "false"
    ensures SlotValueOf(SlotOf(field), text).Some? ==>
              FieldSays(was, SetSlot(was, SlotOf(field), SlotValueOf(SlotOf(field), text).value), field, text)
  {
  }

  /** The global flag reaches the servers without a setting of their own, and changes nothing else of
      the table. */
  lemma GlobalFlagWrite(schema: seq<Field>, s: State, b: bool, kind: SourceKind)
    requires MirrorsListed(schema)
    ensures var r := SetProp(schema, s, "mcp.deferred_loading", if b then "true" else "false", kind);
            && r.error.None? && |r.state.servers| == |s.servers|
            && forall i :: 0 <= i < |s.servers| ==>
                 r.state.servers[i] ==
                 if s.servers[i].deferredSet then s.servers[i] else s.servers[i].(deferred := b)
  {
    hide Lookup, MirrorAt, KnownPath, McpPath, Label, KindName, MirrorsListed, BoolFromText;
    MirrorLookup(schema, McpDeferred);
    FlagTexts(if b then "true" else "false", true);
    FlagTexts(if b then "true" else "false", false);
  }

  // ---- The layer that wins ---------------------------------------------------------------------

  /** A stored text and its recorded source. */
  datatype Stored = Stored(text: string, source: string)

  function FirstOf(a: Option<Stored>, b: Option<Stored>): Option<Stored> {
    if a.Some? then a else b
  }

  function LastOverride(overrides: seq<(string, string)>, path: string, source: string): Option<Stored>
    decreases |overrides|
  {
    if overrides == [] then None
    else
      var last := overrides[|overrides| - 1];
      if Normalize(last.0) == path then Some(Stored(last.1, source))
      else LastOverride(overrides[..|overrides| - 1], path, source)
  }

  function LastEntry(entries: seq<Entry>, path: string, source: string): Option<Stored>
    decreases |entries|
  {
    if entries == [] then None
    else
      var last := entries[|entries| - 1];
      if Normalize(last.key) == path then Some(Stored(TomlText(last.value), source))
      else LastEntry(entries[..|entries| - 1], path, source)
  }

  function FromFile(file: Option<FileSource>, path: string, source: string): Option<Stored> {
    if file.None? then None
    else LastEntry(file.value.entries, path, if file.value.path == [] then source else source + ":" + file.value.path)
  }

  /** The default of a path: of its last field in the schema that is no pattern. */
  function FromDefaults(schema: seq<Field>, path: string): Option<Stored> {
    if schema == [] then None
    else
      var later := FromDefaults(schema[1..], path);
      if later.Some? || FindText(schema[0].path, WILDCARD).Some? || Normalize(schema[0].path) != path then later
      else Some(Stored(schema[0].default, "builtin:builtin"))
  }

  /** What a load stores at a path: of the runtime overrides first, then of the environment, the
      explicit file, the workspace marker, the default file and the defaults. */
  function WinnerOf(schema: seq<Field>, o: LoadOptions, path: string): Option<Stored> {
    FirstOf(LastOverride(o.runtime, path, "runtime:runtime"),
    FirstOf(LastOverride(o.environment, path, "environment:environment"),
    FirstOf(FromFile(o.explicitFile, path, "explicit-file"),
    FirstOf(FromFile(o.workspaceMarker, path, "workspace-marker"),
    FirstOf(FromFile(o.defaultFile, path, "default-file"),
            FromDefaults(schema, path))))))
  }

  /** The last step of a run that writes the path. */
  function LastStep(steps: seq<Step>, path: string): Option<Stored>
    decreases |steps|
  {
    if steps == [] then None
    else
      var last := steps[|steps| - 1];
      if StepPath(last) == path then Some(Stored(StepText(last), StepLabel(last)))
      else LastStep(steps[..|steps| - 1], path)
  }

  lemma {:induction false} LastStepConcat(a: seq<Step>, b: seq<Step>, path: string)
    ensures LastStep(a + b, path) == FirstOf(LastStep(b, path), LastStep(a, path))
    decreases |b|
  {
    hide StepPath, StepText, StepLabel;
    if b == [] {
      assert a + b == a;
    } else {
      assert (a + b)[..|a + b| - 1] == a + b[..|b| - 1];
      LastStepConcat(a, b[..|b| - 1], path);
    }
  }

  predicate StoredAt(s: State, path: string, w: Option<Stored>) {
    && (path in s.values <==> w.Some?) && (path in s.sources <==> w.Some?)
    && (w.Some? ==> s.values[path] == w.value.text && s.sources[path] == w.value.source)
  }

  lemma {:induction false} RunStores(schema: seq<Field>, steps: seq<Step>, path: string)
    requires Run(schema, INITIAL, steps).error.None?
    ensures StoredAt(Run(schema, INITIAL, steps).state, path, LastStep(steps, path))
    decreases |steps|
  {
    hide Apply, StepPath, StepText, StepLabel;
    if steps != [] {
      var n := |steps| - 1;
      RunStores(schema, steps[..n], path);
      SuccessfulStep(schema, Run(schema, INITIAL, steps[..n]).state, steps[n]);
    }
  }

  lemma {:induction false} LastOverrideStep(overrides: seq<(string, string)>, path: string, kind: SourceKind)
    ensures LastStep(OverrideSteps(overrides, kind), path) == LastOverride(overrides, path, Label(kind, KindName(kind)))
    decreases |overrides|
  {
    hide Label, KindName, Normalize;
    if overrides != [] {
      var n := |overrides| - 1;
      LastOverrideStep(overrides[..n], path, kind);
      assert OverrideSteps(overrides, kind)[..n] == OverrideSteps(overrides[..n], kind);
    }
  }

  lemma {:induction false} LastEntryStep(file: FileSource, path: string, kind: SourceKind)
    ensures LastStep(EntrySteps(file, kind), path) == LastEntry(file.entries, path, Label(kind, file.path))
    decreases |file.entries|
  {
    hide Label, TomlText, Normalize;
    if file.entries != [] {
      var n := |file.entries| - 1;
      var init := file.(entries := file.entries[..n]);
      LastEntryStep(init, path, kind);
      assert EntrySteps(file, kind)[..n] == EntrySteps(init, kind);
    }
  }

  lemma LastFileStep(file: Option<FileSource>, path: string, kind: SourceKind)
    ensures LastStep(FileSteps(file, kind), path) == FromFile(file, path, KindName(kind))
  {
    hide KindName, LastEntry;
    if file.Some? {
      LastEntryStep(file.value, path, kind);
    }
  }

  lemma {:induction false} LastDefaultStep(schema: seq<Field>, path: string)
    ensures LastStep(DefaultSteps(schema), path) == FromDefaults(schema, path)
  {
    hide FindText, Normalize, LastStep;
    if schema == [] {
      NoSteps(path);
    } else {
      var later := DefaultSteps(schema[1..]);
      LastDefaultStep(schema[1..], path);
      if FindText(schema[0].path, WILDCARD).Some? {
        assert [] + later == later;
      } else {
        var first := FromOverride(schema[0].path, schema[0].default, Builtin);
        LastStepConcat([first], later, path);
        OneStep(first, path);
        OwnLabels();
      }
    }
  }

  lemma NoSteps(path: string)
    ensures LastStep([], path) == None
  {
  }

  lemma OneStep(e: Step, path: string)
    ensures LastStep([e], path) == if StepPath(e) == path then Some(Stored(StepText(e), StepLabel(e))) else None
  {
    hide StepPath, StepText, StepLabel;
    assert [e][..0] == [];
  }

  /** After a successful load each path holds the text and the source of the highest layer that writes
      it, of the last write there; a path no layer writes is not stored. */
  lemma LoadStores(schema: seq<Field>, o: LoadOptions, path: string)
    requires Run(schema, INITIAL, LoadSteps(schema, o)).error.None?
    ensures StoredAt(Run(schema, INITIAL, LoadSteps(schema, o)).state, path, WinnerOf(schema, o, path))
  {
    LoadWinner(schema, o, path);
    hide Run, LoadSteps, WinnerOf, LastStep;
    RunStores(schema, LoadSteps(schema, o), path);
  }

  lemma LoadWinner(schema: seq<Field>, o: LoadOptions, path: string)
    ensures LastStep(LoadSteps(schema, o), path) == WinnerOf(schema, o, path)
  {
    hide LastStep, DefaultSteps, FileSteps, OverrideSteps, FromFile, LastOverride, FromDefaults;
    var a0 := DefaultSteps(schema);
    var a1 := a0 + FileSteps(o.defaultFile, DefaultFile);
    var a2 := a1 + FileSteps(o.workspaceMarker, WorkspaceMarker);
    var a3 := a2 + FileSteps(o.explicitFile, ExplicitFile);
    var a4 := a3 + OverrideSteps(o.environment, Environment);
    LastStepConcat(a0, FileSteps(o.defaultFile, DefaultFile), path);
    LastStepConcat(a1, FileSteps(o.workspaceMarker, WorkspaceMarker), path);
    LastStepConcat(a2, FileSteps(o.explicitFile, ExplicitFile), path);
    LastStepConcat(a3, OverrideSteps(o.environment, Environment), path);
    LastStepConcat(a4, OverrideSteps(o.runtime, Runtime), path);
    LastDefaultStep(schema, path);
    LastFileStep(o.defaultFile, path, DefaultFile);
    LastFileStep(o.workspaceMarker, path, WorkspaceMarker);
    LastFileStep(o.explicitFile, path, ExplicitFile);
    LastOverrideStep(o.environment, path, Environment);
    LastOverrideStep(o.runtime, path, Runtime);
    OwnLabels();
  }

  lemma OwnLabels()
    ensures Label(Builtin, KindName(Builtin)) == "builtin:builtin"
    ensures Label(Runtime, KindName(Runtime)) == "runtime:runtime"
    ensures Label(Environment, KindName(Environment)) == "environment:environment"
    ensures KindName(ExplicitFile) == "explicit-file" && KindName(WorkspaceMarker) == "workspace-marker"
    ensures KindName(DefaultFile) == "default-file"
  {
  }
}
