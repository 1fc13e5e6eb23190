/** The configuration record in its updated-in-place form: the path scanner, the growing server
    table, the setter and the source loops, each tied to its meaning on values in `ConfigState`. */
module ConfigStore {
  import opened Text
  import opened ConfigState
  import opened ConfigLayers
  import opened ConfigServers

  // ---- Scanning a server path ------------------------------------------------------------------

  lemma {:induction false} MoreDigitsMore(d: string, k: nat)
    requires k <= |d| && AllDigits(d)
    ensures AllDigits(d[..k]) && DigitsValue(d[..k]) <= DigitsValue(d)
    decreases |d|
  {
    if k < |d| {
      MoreDigitsMore(d[..|d| - 1], k);
      assert d[..|d| - 1][..k] == d[..k];
    } else {
      assert d[..k] == d;
    }
  }

  lemma OneMoreDigit(d: string, c: char)
    requires AllDigits(d) && IsDigit(c)
    ensures AllDigits(d + [c]) && DigitsValue(d + [c]) == DigitsValue(d) * 10 + (c as int - '0' as int)
  {
    assert (d + [c])[..|d|] == d;
  }

  /** Too many digits already: no longer run of them names an index. */
  lemma Overflowed(rest: string, k: nat)
    requires k <= |rest| && AllDigits(rest[..k]) && DigitsValue(rest[..k]) > SIZE_MAX
    ensures DigitsValue(rest[..LeadingDigits(rest)]) > SIZE_MAX
  {
    DigitsReach(rest, k);
    var d := rest[..LeadingDigits(rest)];
    MoreDigitsMore(d, k);
    assert d[..k] == rest[..k];
  }

  /** The index is read exactly: the guard before each multiplication refuses just those texts
      whose value does not fit a `size_t`. */
  method ParseMcpServerPath(path: string) returns (r: Option<ServerPath>)
    ensures r == McpPath(path)
  {
    hide DigitsValue, LeadingDigits;
    if |path| <= |MCP_PREFIX| || path[..|MCP_PREFIX|] != MCP_PREFIX {
      assert HasPrefix(path, MCP_PREFIX) ==> LeadingDigits(path[|MCP_PREFIX|..]) == 0;
      return None;
    }
    ghost var rest := path[|MCP_PREFIX|..];
    if !IsDigit(path[|MCP_PREFIX|]) {
      DigitsReach(rest, 0);
      return None;
    }
    var cursor := |MCP_PREFIX|;
    var parsed: nat := 0;
    NoDigits(rest);
    while cursor < |path| && IsDigit(path[cursor])
      invariant |MCP_PREFIX| <= cursor <= |path|
      invariant AllDigits(rest[..cursor - |MCP_PREFIX|])
      invariant parsed == DigitsValue(rest[..cursor - |MCP_PREFIX|]) <= SIZE_MAX
    {
      ghost var k := cursor - |MCP_PREFIX|;
      var digit := path[cursor] as int - '0' as int;
      assert rest[..k + 1] == rest[..k] + [path[cursor]];
      OneMoreDigit(rest[..k], path[cursor]);
      if parsed > (SIZE_MAX - digit) / 10 {
        Overflowed(rest, k + 1);
        return None;
      }
      parsed := parsed * 10 + digit;
      cursor := cursor + 1;
    }
    DigitsReach(rest, cursor - |MCP_PREFIX|);
    if cursor >= |path| || path[cursor] != '.' || cursor + 1 >= |path| {
      return None;
    }
    assert path[cursor + 1..] == rest[cursor - |MCP_PREFIX| + 1..];
    r := Some(ServerPath(parsed, path[cursor + 1..]));
  }

  lemma NoDigits(s: string)
    ensures AllDigits(s[..0]) && DigitsValue(s[..0]) == 0
  {
  }

  /** Sets the named field of a server from its text; an unknown field leaves it as it is. */
  method AssignField(server: Server, field: string, text: string) returns (r: Option<Server>)
    ensures r == match SlotValueOf(SlotOf(field), text)
                 case None => None
                 case Some(v) => Some(SetSlot(server, SlotOf(field), v))
  {
    hide BoolFromText, TransportFrom;
    if field == "name" {
      return Some(server.(name := text));
    } else if field == "transport" {
      return Some(server.(transport := TransportFrom(text)));
    } else if field == "command" {
      return Some(server.(command := text));
    } else if field == "args" {
      return Some(server.(args := text));
    } else if field == "url" {
      return Some(server.(url := text));
    } else if field == "headers" {
      return Some(server.(headers := text));
    } else if field == "enabled" {
      var flag := BoolFromText(text);
      return if flag.None? then None else Some(server.(enabled := flag.value));
    } else if field == "deferred_loading" {
      var flag := BoolFromText(text);
      return if flag.None? then None else Some(server.(deferred := flag.value, deferredSet := true));
    }
    return Some(server);
  }

  // ---- The record ------------------------------------------------------------------------------

  class Config {
    const schema: seq<Field>
    var values: map<string, string>
    var sources: map<string, string>
    var mirrors: map<Mirror, Value>
    var servers: seq<Server>

    ghost function View(): State
      reads this
    {
      State(values, sources, mirrors, servers)
    }

    constructor (fields: seq<Field>)
      ensures schema == fields && View() == INITIAL
    {
      schema := fields;
      values, sources, mirrors, servers := map[], map[], map[], [];
    }

    method SetValue(path: string, text: string)
      modifies this`values
      ensures values == old(values)[path := text]
    {
      values := values[path := text];
    }

    method SetSource(path: string, kind: SourceKind, sourcePath: string)
      modifies this`sources
      ensures sources == old(sources)[path := Label(kind, sourcePath)]
    {
      var recorded := KindName(kind);
      if |sourcePath| > 0 {
        recorded := recorded + ":";
        recorded := recorded + sourcePath;
      }
      assert |sourcePath| > 0 ==> recorded == KindName(kind) + ":" + sourcePath;
      sources := sources[path := recorded];
    }

    /** Pushes fresh servers until `index` exists. */
    method ServerForIndex(index: nat)
      modifies this`servers
      ensures servers == Grow(old(servers), DeferredFlag(old(View())), index + 1)
    {
      var deferred := McpDeferred in mirrors && mirrors[McpDeferred] == BoolValue(true);
      while |servers| <= index
        invariant |servers| <= (if |old(servers)| > index + 1 then |old(servers)| else index + 1)
        invariant |servers| >= |old(servers)|
        invariant forall i :: 0 <= i < |servers| ==>
                    servers[i] == if i < |old(servers)| then old(servers)[i] else FreshServer(deferred)
      {
        servers := servers + [FreshServer(deferred)];
      }
    }

    /** What a path outside the schema does to the server table, and whether its flag was refused. */
    method ApplyMcpServerProp(path: string, text: string) returns (error: Option<string>)
      modifies this`servers
      ensures McpPath(path).None? ==> error.None? && servers == old(servers)
      ensures McpPath(path).Some? ==>
                var p := McpPath(path).value;
                var v := SlotValueOf(SlotOf(p.field), text);
                if v.None? then
                  error == Some("sc.config.invalid_bool")
                  && servers == Grow(old(servers), DeferredFlag(old(View())), p.index + 1)
                else
                  error.None?
                  && View() == ApplyEffect(old(View()), SetServer(p.index, SlotOf(p.field), v.value))
    {
      hide McpPath, Grow, DeferredFlag, FreshServer, SetSlot, SlotOf, SlotValueOf;
      var parsed := ParseMcpServerPath(path);
      if parsed.None? {
        return None;
      }
      var index := parsed.value.index;
      ServerForIndex(index);
      var server := AssignField(servers[index], parsed.value.field, text);
      if server.None? {
        return Some("sc.config.invalid_bool");
      }
      servers := servers[index := server.value];
      return None;
    }

    /** Stores a mirror; the deferred flag is passed on to the servers without their own setting. */
    method SetMirrorField(m: Mirror, v: Value)
      modifies this`mirrors, this`servers
      ensures View() == ApplyEffect(old(View()), SetMirror(m, v))
    {
      mirrors := mirrors[m := v];
      if m.McpDeferred? {
        var i := 0;
        while i < |servers|
          invariant 0 <= i <= |servers| == |old(servers)| && mirrors == old(mirrors)[m := v]
          invariant forall j :: 0 <= j < |servers| ==>
                      servers[j] == if j < i then Redefer(old(servers), v == BoolValue(true))[j] else old(servers)[j]
        {
          if !servers[i].deferredSet {
            servers := servers[i := servers[i].(deferred := v == BoolValue(true))];
          }
          i := i + 1;
        }
        assert servers == Redefer(old(servers), v == BoolValue(true));
      }
    }

    /** The setter: the record afterwards, refused or not, is that of `SetProp`. */
    method SetPropFromText(path: string, text: string, kind: SourceKind) returns (error: Option<string>)
      modifies this`values, this`sources, this`mirrors, this`servers
      ensures Outcome(View(), error) == SetProp(schema, old(View()), path, text, kind)
    {
      hide Lookup, McpPath, SlotOf, SlotValueOf, SetSlot, Grow, Redefer, Assigned, TypeAccepts, KnownPath, MirrorAt,
           KindName, Label;
      var p := Normalize(path);
      var field := Lookup(schema, p);
      if field.None? {
        SetValue(p, text);
        error := ApplyMcpServerProp(p, text);
        if error.None? {
          SetSource(p, kind, KindName(kind));
        }
        return;
      }
      if !TypeAccepts(field.value.kind, text) {
        return Some("sc.config.invalid_type");
      }
      if MirrorAt(p).Some? {
        SetMirrorField(MirrorAt(p).value, Assigned(MirrorAt(p).value, field.value.kind, text));
      } else if !KnownPath(p) {
        return Some("sc.config.unknown_field");
      }
      SetValue(p, text);
      SetSource(p, kind, KindName(kind));
      return None;
    }

    /** The entries of a source in the order its table is walked, up to the first refusal. */
    method ApplyTomlSource(entries: seq<Entry>, kind: SourceKind, sourcePath: string) returns (error: Option<string>)
      modifies this`values, this`sources, this`mirrors, this`servers
      ensures Outcome(View(), error) == ApplyToml(schema, old(View()), entries, kind, sourcePath)
    {
      hide *;
      var i := 0;
      ApplyNothing(View(), entries, kind, sourcePath);
      while i < |entries|
        invariant 0 <= i <= |entries|
        invariant Outcome(View(), None) == ApplyToml(schema, old(View()), entries[..i], kind, sourcePath)
      {
        ghost var before := View();
        ApplyNext(schema, old(View()), entries, i, kind, sourcePath);
        error := ApplyTomlEntry(entries[i], kind, sourcePath);
        if error.Some? {
          ApplyStops(schema, old(View()), entries, i + 1, kind, sourcePath);
          return;
        }
        i := i + 1;
      }
      assert entries[..i] == entries;
      return None;
    }

    lemma ApplyNothing(s: State, entries: seq<Entry>, kind: SourceKind, sourcePath: string)
      ensures ApplyToml(schema, s, entries[..0], kind, sourcePath) == Outcome(s, None)
    {
    }

    method ApplyTomlEntry(entry: Entry, kind: SourceKind, sourcePath: string) returns (error: Option<string>)
      modifies this`values, this`sources, this`mirrors, this`servers
      ensures Outcome(View(), error) == ApplyEntry(schema, old(View()), entry, kind, sourcePath)
    {
      hide Lookup, TomlFits, TomlText, Label, KindName, EffectOf, ApplyEffect, AfterRefusal;
      var p := Normalize(entry.key);
      var field := Lookup(schema, p);
      if field.Some? && !TomlFits(field.value.kind, entry.value) {
        return Some("sc.config.invalid_type");
      }
      error := SetPropFromText(p, TomlText(entry.value), kind);
      if error.None? {
        SetSource(p, kind, sourcePath);
      }
    }

    method ApplyOverride(kind: SourceKind, path: string, text: string) returns (error: Option<string>)
      modifies this`values, this`sources, this`mirrors, this`servers
      ensures Outcome(View(), error) == Apply(schema, old(View()), FromOverride(path, text, kind))
    {
      hide EffectOf, ApplyEffect, AfterRefusal, Label, KindName;
      error := SetPropFromText(Normalize(path), text, kind);
    }

    method ApplyDefaults() returns (error: Option<string>)
      modifies this`values, this`sources, this`mirrors, this`servers
      ensures Outcome(View(), error) == Run(schema, old(View()), DefaultSteps(schema))
    {
      hide *;
      var i := 0;
      assert schema[0..] == schema;
      while i < |schema|
        invariant i <= |schema|
        invariant Run(schema, View(), DefaultSteps(schema[i..])) == Run(schema, old(View()), DefaultSteps(schema))
      {
        ghost var before := View();
        DefaultStep(schema, before, i);
        if FindText(schema[i].path, WILDCARD).None? {
          error := ApplyOverride(Builtin, schema[i].path, schema[i].default);
          if error.Some? {
            return;
          }
        }
        i := i + 1;
      }
      NoDefaults(schema, View());
      return None;
    }

    method ApplyOverrides(overrides: seq<(string, string)>, kind: SourceKind) returns (error: Option<string>)
      modifies this`values, this`sources, this`mirrors, this`servers
      ensures Outcome(View(), error) == Run(schema, old(View()), OverrideSteps(overrides, kind))
    {
      hide *;
      var i := 0;
      ghost var steps := OverrideSteps(overrides, kind);
      OverrideStepAt(overrides, kind);
      assert steps[0..] == steps;
      while i < |overrides|
        invariant i <= |overrides|
        invariant Run(schema, View(), steps[i..]) == Run(schema, old(View()), steps)
      {
        RunFirst(schema, View(), steps[i..]);
        assert steps[i..][1..] == steps[i + 1..] && steps[i..][0] == steps[i];
        error := ApplyOverride(kind, overrides[i].0, overrides[i].1);
        if error.Some? {
          return;
        }
        i := i + 1;
      }
      NothingToRun(schema, View(), steps[i..]);
      return None;
    }

    method ApplyFile(file: Option<FileText>, kind: SourceKind) returns (error: Option<string>)
      modifies this`values, this`sources, this`mirrors, this`servers
      ensures Outcome(View(), error) == FileThen(schema, Outcome(old(View()), None), file, kind)
    {
      if file.None? {
        return None;
      }
      if file.value.Unreadable? {
        return Some(file.value.code);
      }
      SourceRuns(schema, View(), file.value.file, kind);
      error := ApplyTomlSource(file.value.file.entries, kind, file.value.file.path);
    }

    method Clear()
      modifies this`values, this`sources, this`mirrors, this`servers
      ensures View() == INITIAL
    {
      values, sources, mirrors, servers := map[], map[], map[], [];
    }

    /** The rules for single fields, then those for the server table. */
    method ValidateAll(rules: State -> Option<string>) returns (error: Option<string>)
      ensures Outcome(View(), error) == Checked(rules, Outcome(View(), None))
    {
      error := rules(State(values, sources, mirrors, servers));
      if error.None? {
        error := Validate(servers);
      }
    }

    /** Loads and validates the defaults, then every layer in turn, and validates again; the record is
        cleared when anything is refused. */
    method Load(i: Inputs, rules: State -> Option<string>) returns (error: Option<string>)
      requires View() == INITIAL
      modifies this`values, this`sources, this`mirrors, this`servers
      ensures Outcome(View(), error) == Loaded(schema, i, rules)
    {
      hide Run, DefaultSteps, OverrideSteps, Checked, INITIAL;
      error := ApplyDefaults();
      if error.None? {
        error := ValidateAll(rules);
      }
      CheckedStops(rules, Run(schema, INITIAL, DefaultSteps(schema)));
      ghost var r0 := Checked(rules, Run(schema, INITIAL, DefaultSteps(schema)));
      assert Outcome(View(), error) == r0;
      if error.None? {
        error := ApplyFile(i.defaultFile, DefaultFile);
      }
      if error.None? {
        error := ApplyFile(i.workspaceMarker, WorkspaceMarker);
      }
      if error.None? {
        error := ApplyFile(i.explicitFile, ExplicitFile);
      }
      assert Outcome(View(), error) == Filed(schema, r0, i);
      if error.None? {
        error := ApplyOverrides(i.environment, Environment);
      }
      if error.None? {
        error := ApplyOverrides(i.runtime, Runtime);
      }
      CheckedStops(rules, Outcome(View(), error));
      if error.None? {
        error := ValidateAll(rules);
      }
      if error.Some? {
        Clear();
      }
    }
  }

  // ---- What a load comes to --------------------------------------------------------------------

  /** The text of a file, parsed or refused by the TOML parser. */
  datatype FileText = Readable(file: FileSource) | Unreadable(code: string)

  datatype Inputs = Inputs(
    defaultFile: Option<FileText>, workspaceMarker: Option<FileText>, explicitFile: Option<FileText>,
    environment: seq<(string, string)>, runtime: seq<(string, string)>)

  predicate CanBeRead(file: Option<FileText>) {
    file.None? || file.value.Readable?
  }

  predicate AllCanBeRead(i: Inputs) {
    CanBeRead(i.defaultFile) && CanBeRead(i.workspaceMarker) && CanBeRead(i.explicitFile)
  }

  function FileOf(file: Option<FileText>): Option<FileSource> {
    if file.Some? && file.value.Readable? then Some(file.value.file) else None
  }

  function OptionsOf(i: Inputs): LoadOptions {
    LoadOptions(FileOf(i.defaultFile), FileOf(i.workspaceMarker), FileOf(i.explicitFile), i.environment, i.runtime)
  }

  /** Two parts of a run, the second skipped when the first is refused. */
  function Then(schema: seq<Field>, first: Outcome, steps: seq<Step>): Outcome {
    if first.error.Some? then first else Run(schema, first.state, steps)
  }

  function FileThen(schema: seq<Field>, first: Outcome, file: Option<FileText>, kind: SourceKind): Outcome {
    if first.error.Some? || file.None? then first
    else
      match file.value
      case Unreadable(code) => Outcome(first.state, Some(code))
      case Readable(source) => Run(schema, first.state, FileSteps(Some(source), kind))
  }

  /** Validation of what a run left, when it was not refused. */
  function Checked(rules: State -> Option<string>, r: Outcome): Outcome {
    if r.error.Some? then r
    else if rules(r.state).Some? then Outcome(r.state, rules(r.state))
    else Outcome(r.state, Verdict(r.state.servers, 0))
  }

  function Filed(schema: seq<Field>, r: Outcome, i: Inputs): Outcome {
    var r1 := FileThen(schema, r, i.defaultFile, DefaultFile);
    var r2 := FileThen(schema, r1, i.workspaceMarker, WorkspaceMarker);
    FileThen(schema, r2, i.explicitFile, ExplicitFile)
  }

  function Loaded(schema: seq<Field>, i: Inputs, rules: State -> Option<string>): Outcome {
    var r0 := Checked(rules, Run(schema, INITIAL, DefaultSteps(schema)));
    var r3 := Filed(schema, r0, i);
    var r4 := Then(schema, r3, OverrideSteps(i.environment, Environment));
    var r := Checked(rules, Then(schema, r4, OverrideSteps(i.runtime, Runtime)));
    if r.error.Some? then Outcome(INITIAL, r.error) else r
  }

  /** A state that validation accepts. */
  predicate Passes(rules: State -> Option<string>, s: State) {
    rules(s).None? && Valid(s.servers)
  }

  lemma CheckedStops(rules: State -> Option<string>, r: Outcome)
    ensures Checked(rules, r) == if r.error.Some? then r else Checked(rules, Outcome(r.state, None))
  {
  }

  lemma CheckedIff(rules: State -> Option<string>, r: Outcome)
    ensures Checked(rules, r).state == r.state
    ensures Checked(rules, r).error.None? <==> r.error.None? && Passes(rules, r.state)
  {
    hide Valid, Verdict;
    VerdictIff(r.state.servers, 0);
  }

  lemma FileIsThen(schema: seq<Field>, r: Outcome, file: Option<FileText>, kind: SourceKind)
    ensures CanBeRead(file) ==> FileThen(schema, r, file, kind) == Then(schema, r, FileSteps(FileOf(file), kind))
    ensures r.error.Some? || !CanBeRead(file) ==> FileThen(schema, r, file, kind).error.Some?
  {
    hide Run;
    NothingToRun(schema, r.state, []);
  }

  /** A load succeeds if and only if every file can be read, no write of any layer is refused, and both
      the defaults and the result are valid; it then leaves what the run of all layers leaves, with a
      valid server table. A load that fails leaves nothing. */
  lemma LoadedIff(schema: seq<Field>, i: Inputs, rules: State -> Option<string>)
    ensures var r := Run(schema, INITIAL, LoadSteps(schema, OptionsOf(i)));
            Loaded(schema, i, rules).error.None?
            <==> (AllCanBeRead(i) && r.error.None? && Passes(rules, r.state)
                  && Passes(rules, Run(schema, INITIAL, DefaultSteps(schema)).state))
    ensures Loaded(schema, i, rules).error.None? ==>
              Loaded(schema, i, rules) == Run(schema, INITIAL, LoadSteps(schema, OptionsOf(i)))
              && Valid(Loaded(schema, i, rules).state.servers)
    ensures Loaded(schema, i, rules).error.Some? ==> Loaded(schema, i, rules).state == INITIAL
  {
    hide Run, DefaultSteps, FileSteps, OverrideSteps, LoadSteps, INITIAL, Checked, FileThen, Valid;
    var o := OptionsOf(i);
    LoadInParts(schema, o);
    var d := Run(schema, INITIAL, DefaultSteps(schema));
    var r0 := Checked(rules, d);
    CheckedIff(rules, d);
    var r1 := FileThen(schema, r0, i.defaultFile, DefaultFile);
    var r2 := FileThen(schema, r1, i.workspaceMarker, WorkspaceMarker);
    FileIsThen(schema, r0, i.defaultFile, DefaultFile);
    FileIsThen(schema, r1, i.workspaceMarker, WorkspaceMarker);
    FileIsThen(schema, r2, i.explicitFile, ExplicitFile);
    var r4 := Then(schema, Filed(schema, r0, i), OverrideSteps(i.environment, Environment));
    CheckedIff(rules, Then(schema, r4, OverrideSteps(i.runtime, Runtime)));
    OutcomeIs(r0);
    OutcomeIs(d);
  }

  lemma OutcomeIs(r: Outcome)
    ensures r.error.None? ==> r == Outcome(r.state, None)
  {
  }

  // ---- Runs in parts ---------------------------------------------------------------------------

  lemma {:induction false} RunConcat(schema: seq<Field>, s: State, a: seq<Step>, b: seq<Step>)
    ensures Run(schema, s, a + b) == Then(schema, Run(schema, s, a), b)
    decreases |b|
  {
    hide Apply;
    if b == [] {
      assert a + b == a;
    } else {
      var init := b[..|b| - 1];
      assert (a + b)[..|a + b| - 1] == a + init;
      RunConcat(schema, s, a, init);
    }
  }

  lemma RunFirst(schema: seq<Field>, s: State, steps: seq<Step>)
    requires steps != []
    ensures var r := Apply(schema, s, steps[0]);
            Run(schema, s, steps) == if r.error.Some? then r else Run(schema, r.state, steps[1..])
  {
    hide Apply;
    assert steps == [steps[0]] + steps[1..];
    RunConcat(schema, s, [steps[0]], steps[1..]);
    assert [steps[0]][..0] == [];
  }

  lemma NothingToRun(schema: seq<Field>, s: State, steps: seq<Step>)
    requires |steps| == 0
    ensures Run(schema, s, steps) == Outcome(s, None)
  {
  }

  lemma OverrideStepAt(overrides: seq<(string, string)>, kind: SourceKind)
    ensures |OverrideSteps(overrides, kind)| == |overrides|
    ensures forall i :: 0 <= i < |overrides| ==>
              OverrideSteps(overrides, kind)[i] == FromOverride(overrides[i].0, overrides[i].1, kind)
  {
  }

  lemma DefaultStep(schema: seq<Field>, s: State, i: nat)
    requires i < |schema|
    ensures var r := Apply(schema, s, FromOverride(schema[i].path, schema[i].default, Builtin));
            Run(schema, s, DefaultSteps(schema[i..])) ==
            if FindText(schema[i].path, WILDCARD).Some? then Run(schema, s, DefaultSteps(schema[i + 1..]))
            else if r.error.Some? then r
            else Run(schema, r.state, DefaultSteps(schema[i + 1..]))
  {
    hide Run, Apply, FindText;
    var later := DefaultSteps(schema[i + 1..]);
    assert schema[i..][1..] == schema[i + 1..];
    if FindText(schema[i].path, WILDCARD).Some? {
      assert [] + later == later;
    } else {
      var step := FromOverride(schema[i].path, schema[i].default, Builtin);
      assert DefaultSteps(schema[i..]) == [step] + later;
      RunFirst(schema, s, [step] + later);
      assert ([step] + later)[1..] == later;
    }
  }

  lemma NoDefaults(schema: seq<Field>, s: State)
    ensures Run(schema, s, DefaultSteps(schema[|schema|..])) == Outcome(s, None)
  {
  }

  /** A source applied is the run of its entries. */
  lemma {:induction false} SourceRuns(schema: seq<Field>, s: State, file: FileSource, kind: SourceKind)
    ensures Run(schema, s, FileSteps(Some(file), kind)) == ApplyToml(schema, s, file.entries, kind, file.path)
    decreases |file.entries|
  {
    hide ApplyEntry;
    if file.entries != [] {
      var n := |file.entries| - 1;
      SourceRuns(schema, s, file.(entries := file.entries[..n]), kind);
      assert FileSteps(Some(file), kind)[..n] == FileSteps(Some(file.(entries := file.entries[..n])), kind);
    }
  }

  lemma LoadInParts(schema: seq<Field>, o: LoadOptions)
    ensures var r0 := Run(schema, INITIAL, DefaultSteps(schema));
            var r1 := Then(schema, r0, FileSteps(o.defaultFile, DefaultFile));
            var r2 := Then(schema, r1, FileSteps(o.workspaceMarker, WorkspaceMarker));
            var r3 := Then(schema, r2, FileSteps(o.explicitFile, ExplicitFile));
            var r4 := Then(schema, r3, OverrideSteps(o.environment, Environment));
            Run(schema, INITIAL, LoadSteps(schema, o)) == Then(schema, r4, OverrideSteps(o.runtime, Runtime))
  {
    hide Run, DefaultSteps, FileSteps, OverrideSteps, Then;
    var a0 := DefaultSteps(schema);
    var a1 := a0 + FileSteps(o.defaultFile, DefaultFile);
    var a2 := a1 + FileSteps(o.workspaceMarker, WorkspaceMarker);
    var a3 := a2 + FileSteps(o.explicitFile, ExplicitFile);
    var a4 := a3 + OverrideSteps(o.environment, Environment);
    RunConcat(schema, INITIAL, a0, FileSteps(o.defaultFile, DefaultFile));
    RunConcat(schema, INITIAL, a1, FileSteps(o.workspaceMarker, WorkspaceMarker));
    RunConcat(schema, INITIAL, a2, FileSteps(o.explicitFile, ExplicitFile));
    RunConcat(schema, INITIAL, a3, OverrideSteps(o.environment, Environment));
    RunConcat(schema, INITIAL, a4, OverrideSteps(o.runtime, Runtime));
  }
}
