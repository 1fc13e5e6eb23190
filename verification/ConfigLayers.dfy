/** Last-writer-wins layering: what every run of sources and overrides leaves in the maps and in the
    typed mirrors. */
module ConfigLayers {
  import opened Text
  import opened ConfigState

  /** One property write of a run: an entry of a TOML source, or a text override. */
  datatype Step =
    | FromToml(entry: Entry, tomlKind: SourceKind, sourcePath: string)
    | FromOverride(path: string, text: string, overrideKind: SourceKind)

  function StepPath(e: Step): string {
    Normalize(if e.FromToml? then e.entry.key else e.path)
  }

  function StepText(e: Step): string {
    if e.FromToml? then TomlText(e.entry.value) else e.text
  }

  function StepKind(e: Step): SourceKind {
    if e.FromToml? then e.tomlKind else e.overrideKind
  }

  function StepLabel(e: Step): string {
    if e.FromToml? then Label(e.tomlKind, e.sourcePath)
    else Label(e.overrideKind, KindName(e.overrideKind))
  }

  function Apply(schema: seq<Field>, s: State, e: Step): Outcome {
    match e
    case FromToml(entry, kind, sourcePath) => ApplyEntry(schema, s, entry, kind, sourcePath)
    case FromOverride(path, text, kind) => SetProp(schema, s, path, text, kind)
  }

  function Run(schema: seq<Field>, s: State, steps: seq<Step>): Outcome
    decreases |steps|
  {
    if steps == [] then Outcome(s, None)
    else
      var r := Run(schema, s, steps[..|steps| - 1]);
      if r.error.Some? then r else Apply(schema, r.state, steps[|steps| - 1])
  }

  // ---- What one step does ----------------------------------------------------------------------

  lemma EffectKeepsMaps(s: State, e: Effect)
    requires e.SetServer? ==> Fits(e.slot, e.slotValue)
    ensures ApplyEffect(s, e).values == s.values && ApplyEffect(s, e).sources == s.sources
  {
  }

  lemma SuccessfulStep(schema: seq<Field>, s: State, e: Step)
    requires Apply(schema, s, e).error.None?
    ensures var t := Apply(schema, s, e).state;
            && t.values == s.values[StepPath(e) := StepText(e)]
            && t.sources == s.sources[StepPath(e) := StepLabel(e)]
  {
    hide Lookup, EffectOf, ApplyEffect, TomlText, Label, KindName, AfterRefusal, TomlFits;
    assert Normalize(StepPath(e)) == StepPath(e);
    var effect := EffectOf(schema, StepPath(e), StepText(e)).value;
    EffectKeepsMaps(s, effect);
  }

  /** A path outside the schema that names a server flag, with a text that is no flag. */
  predicate RefusedFlag(schema: seq<Field>, path: string, text: string) {
    && Lookup(schema, path).None? && McpPath(path).Some?
    && SlotValueOf(SlotOf(McpPath(path).value.field), text).None?
  }

  /** A refused step leaves the state alone, unless it is a server flag: then its text is stored and
      the table has grown. */
  lemma RefusedStep(schema: seq<Field>, s: State, e: Step)
    requires Apply(schema, s, e).error.Some?
    ensures Apply(schema, s, e).state ==
            if RefusedFlag(schema, StepPath(e), StepText(e))
            then AfterRefusal(schema, s, StepPath(e), StepText(e))
            else s
  {
    hide Lookup, McpPath, SlotOf, SlotValueOf, TomlText, TomlFits, TypeAccepts, MirrorAt, KnownPath, Assigned, Grow;
    assert Normalize(StepPath(e)) == StepPath(e);
  }

  // ---- Agreement of the mirrors ----------------------------------------------------------------

  /** The schema lists every mirrored path with the type of its mirror. */
  ghost predicate MirrorsListed(schema: seq<Field>) {
    forall m: Mirror :: FirstExact(schema, PathOf(m)).Some? && FirstExact(schema, PathOf(m)).value.kind == KindOf(m)
  }

  /** Every mirror equals the parse of its stored text, which does parse, and every server without
      a setting of its own follows the global flag. */
  ghost predicate Agrees(s: State) {
    && (forall m: Mirror :: PathOf(m) in s.values ==>
          TypeAccepts(KindOf(m), s.values[PathOf(m)]) && MirrorValue(s, m) == Parsed(m, s.values[PathOf(m)]))
    && ServersFollow(s)
  }

  predicate ServersFollow(s: State) {
    forall i :: 0 <= i < |s.servers| && !s.servers[i].deferredSet ==> s.servers[i].deferred == DeferredFlag(s)
  }

  lemma EffectKeepsServers(s: State, e: Effect)
    requires ServersFollow(s) && (e.SetServer? ==> Fits(e.slot, e.slotValue))
    ensures ServersFollow(ApplyEffect(s, e))
  {
  }

  lemma EffectAgrees(schema: seq<Field>, s: State, path: string, text: string)
    requires MirrorsListed(schema) && Agrees(s) && EffectOf(schema, path, text).Ok?
    ensures var t := ApplyEffect(s, EffectOf(schema, path, text).value);
            Agrees(t.(values := t.values[path := text]))
  {
    var e := EffectOf(schema, path, text).value;
    var t := ApplyEffect(s, e);
    EffectKeepsServers(s, e);
    forall m: Mirror | PathOf(m) in t.values[path := text]
      ensures TypeAccepts(KindOf(m), t.values[path := text][PathOf(m)])
      ensures MirrorValue(t, m) == Parsed(m, t.values[path := text][PathOf(m)])
    {
      MirrorPaths(m, path);
    }
  }

  lemma RefusalAgrees(schema: seq<Field>, s: State, path: string, text: string)
    requires MirrorsListed(schema) && Agrees(s)
    ensures Agrees(AfterRefusal(schema, s, path, text))
  {
    forall m: Mirror
      ensures PathOf(m) == path ==> Lookup(schema, path).Some?
    {
      assert FirstExact(schema, PathOf(m)).Some?;
    }
  }

  lemma StepAgrees(schema: seq<Field>, s: State, e: Step)
    requires MirrorsListed(schema) && Agrees(s)
    ensures Agrees(Apply(schema, s, e).state)
  {
    assert Normalize(StepPath(e)) == StepPath(e);
    RefusalAgrees(schema, s, StepPath(e), StepText(e));
    if Apply(schema, s, e).error.None? {
      EffectAgrees(schema, s, StepPath(e), StepText(e));
    }
  }

  /** Mirrors and stored text agree after every run, even one that fails. */
  lemma {:induction false} RunAgrees(schema: seq<Field>, s: State, steps: seq<Step>)
    requires MirrorsListed(schema) && Agrees(s)
    ensures Agrees(Run(schema, s, steps).state)
    decreases |steps|
  {
    if steps != [] {
      RunAgrees(schema, s, steps[..|steps| - 1]);
      var r := Run(schema, s, steps[..|steps| - 1]);
      if r.error.None? {
        StepAgrees(schema, r.state, steps[|steps| - 1]);
      }
    }
  }

  /** One step keeps the two maps on the same keys exactly when it is not a refused server flag at a
      path that was not stored before. */
  lemma StepKeepsKeys(schema: seq<Field>, s: State, e: Step)
    requires s.values.Keys == s.sources.Keys
    ensures var t := Apply(schema, s, e).state;
            t.values.Keys == t.sources.Keys
            <==> (RefusedFlag(schema, StepPath(e), StepText(e)) ==> StepPath(e) in s.values)
  {
    hide Lookup, TomlText, Label, KindName, TomlFits, McpPath, SlotOf, SlotValueOf, TypeAccepts, MirrorAt,
         Assigned, KnownPath, Grow, Redefer, SetSlot, DeferredFlag;
    var p := StepPath(e);
    assert Normalize(p) == p;
    var t := Apply(schema, s, e).state;
    if RefusedFlag(schema, p, StepText(e)) {
      assert t.values == s.values[p := StepText(e)] && t.sources == s.sources;
      assert p in t.values.Keys;
    }
  }

  /** A server flag that the schema does not know, set to `maybe`: its text is stored, its source is
      not. */
  lemma RefusedFlagIsStored(schema: seq<Field>, s: State, digits: string, kind: SourceKind)
    requires digits != [] && AllDigits(digits) && DigitsValue(digits) <= SIZE_MAX
    requires Lookup(schema, ServerKey(digits, "enabled")).None?
    ensures var path := ServerKey(digits, "enabled");
            var r := Apply(schema, s, FromOverride(path, "maybe", kind));
            && r.error == Some("sc.config.invalid_bool")
            && r.state.values == s.values[path := "maybe"] && r.state.sources == s.sources
  {
    hide McpPath, ServerKey, Lookup;
    var path := ServerKey(digits, "enabled");
    ServerKeyReads(digits, "enabled");
    ServerKeyIsNormal(digits, "enabled");
  }

  lemma ServerKeyIsNormal(digits: string, field: string)
    ensures Normalize(ServerKey(digits, field)) == ServerKey(digits, field)
  {
    assert ServerKey(digits, field)[0] == 'm' && "schema_version"[0] == 's';
  }

  // ---- Last writer wins ------------------------------------------------------------------------

  /** Step `i` is the last of the run to write `path`. */
  ghost predicate LastWrite(steps: seq<Step>, i: nat, path: string) {
    && i < |steps| && StepPath(steps[i]) == path
    && forall j :: i < j < |steps| ==> StepPath(steps[j]) != path
  }

  ghost predicate Unwritten(steps: seq<Step>, path: string) {
    forall j :: 0 <= j < |steps| ==> StepPath(steps[j]) != path
  }

  /** The state holds the text and the source of write `e` at `path`. */
  ghost predicate Holds(s: State, path: string, e: Step) {
    && path in s.values && s.values[path] == StepText(e)
    && path in s.sources && s.sources[path] == StepLabel(e)
  }

  ghost predicate SameAt(s: State, t: State, path: string) {
    && (path in t.values <==> path in s.values) && (path in s.values ==> t.values[path] == s.values[path])
    && (path in t.sources <==> path in s.sources) && (path in s.sources ==> t.sources[path] == s.sources[path])
  }

  /** After a successful run each path holds the text and the source of its last writer. */
  lemma {:induction false} LastWriterWins(schema: seq<Field>, s: State, steps: seq<Step>, path: string)
    requires Run(schema, s, steps).error.None?
    ensures Unwritten(steps, path) ==> SameAt(s, Run(schema, s, steps).state, path)
    ensures forall i: nat :: LastWrite(steps, i, path) ==> Holds(Run(schema, s, steps).state, path, steps[i])
    decreases |steps|
  {
    if steps != [] {
      var n := |steps| - 1;
      var init := steps[..n];
      LastWriterWins(schema, s, init, path);
      SuccessfulStep(schema, Run(schema, s, init).state, steps[n]);
      assert Unwritten(steps, path) ==> Unwritten(init, path) && StepPath(steps[n]) != path;
      forall i: nat | LastWrite(steps, i, path)
        ensures i == n || (LastWrite(init, i, path) && StepPath(steps[n]) != path)
      {
      }
    }
  }

  lemma {:induction false} SomeLastWrite(steps: seq<Step>, path: string) returns (i: nat)
    requires !Unwritten(steps, path)
    ensures LastWrite(steps, i, path)
    decreases |steps|
  {
    var n := |steps| - 1;
    if StepPath(steps[n]) == path {
      i := n;
    } else {
      i := SomeLastWrite(steps[..n], path);
    }
  }

  // ---- Loading ---------------------------------------------------------------------------------

  function Rank(k: SourceKind): nat {
    match k
    case Builtin => 0
    case DefaultFile => 1
    case WorkspaceMarker => 2
    case ExplicitFile => 3
    case Environment => 4
    case Runtime => 5
  }

  datatype FileSource = FileSource(path: string, entries: seq<Entry>)

  datatype LoadOptions = LoadOptions(
    defaultFile: Option<FileSource>, workspaceMarker: Option<FileSource>, explicitFile: Option<FileSource>,
    environment: seq<(string, string)>, runtime: seq<(string, string)>)

  function DefaultSteps(schema: seq<Field>): (r: seq<Step>)
    ensures forall i :: 0 <= i < |r| ==> StepKind(r[i]) == Builtin
  {
    if schema == [] then []
    else (if FindText(schema[0].path, WILDCARD).Some? then []
          else [FromOverride(schema[0].path, schema[0].default, Builtin)]) + DefaultSteps(schema[1..])
  }

  function EntrySteps(file: FileSource, kind: SourceKind): (r: seq<Step>)
    ensures forall i :: 0 <= i < |r| ==> StepKind(r[i]) == kind
  {
    seq(|file.entries|, i requires 0 <= i < |file.entries| => FromToml(file.entries[i], kind, file.path))
  }

  function FileSteps(file: Option<FileSource>, kind: SourceKind): (r: seq<Step>)
    ensures forall i :: 0 <= i < |r| ==> StepKind(r[i]) == kind
  {
    if file.None? then [] else EntrySteps(file.value, kind)
  }

  function OverrideSteps(overrides: seq<(string, string)>, kind: SourceKind): (r: seq<Step>)
    ensures forall i :: 0 <= i < |r| ==> StepKind(r[i]) == kind
  {
    seq(|overrides|, i requires 0 <= i < |overrides| => FromOverride(overrides[i].0, overrides[i].1, kind))
  }

  /** The writes of a load, in order: built-in defaults, the three files, environment, runtime. */
  function LoadSteps(schema: seq<Field>, o: LoadOptions): seq<Step> {
    DefaultSteps(schema) + FileSteps(o.defaultFile, DefaultFile) + FileSteps(o.workspaceMarker, WorkspaceMarker)
    + FileSteps(o.explicitFile, ExplicitFile) + OverrideSteps(o.environment, Environment)
    + OverrideSteps(o.runtime, Runtime)
  }

  ghost predicate Layered(steps: seq<Step>) {
    forall i, j :: 0 <= i < j < |steps| ==> Rank(StepKind(steps[i])) <= Rank(StepKind(steps[j]))
  }

  lemma LayeredConcat(a: seq<Step>, b: seq<Step>, r: nat)
    requires Layered(a) && forall i :: 0 <= i < |a| ==> Rank(StepKind(a[i])) < r
    requires forall i :: 0 <= i < |b| ==> Rank(StepKind(b[i])) == r
    ensures Layered(a + b) && forall i :: 0 <= i < |a + b| ==> Rank(StepKind((a + b)[i])) < r + 1
  {
  }

  lemma LoadIsLayered(schema: seq<Field>, o: LoadOptions)
    ensures Layered(LoadSteps(schema, o))
  {
    var a0 := DefaultSteps(schema);
    var a1 := a0 + FileSteps(o.defaultFile, DefaultFile);
    var a2 := a1 + FileSteps(o.workspaceMarker, WorkspaceMarker);
    var a3 := a2 + FileSteps(o.explicitFile, ExplicitFile);
    var a4 := a3 + OverrideSteps(o.environment, Environment);
    LayeredConcat(a0, FileSteps(o.defaultFile, DefaultFile), 1);
    LayeredConcat(a1, FileSteps(o.workspaceMarker, WorkspaceMarker), 2);
    LayeredConcat(a2, FileSteps(o.explicitFile, ExplicitFile), 3);
    LayeredConcat(a3, OverrideSteps(o.environment, Environment), 4);
    LayeredConcat(a4, OverrideSteps(o.runtime, Runtime), 5);
  }

  lemma PrefixStarts(s: string, p: string)
    requires p != []
    ensures HasPrefix(s, p) ==> s != [] && s[0] == p[0]
  {
    assert HasPrefix(s, p) ==> s[..|p|][0] == p[0];
  }

  lemma {:induction false} NoWildcard(s: string)
    requires '<' !in s
    ensures FindText(s, WILDCARD).None?
  {
    PrefixStarts(s, WILDCARD);
    if s != [] {
      NoWildcard(s[1..]);
    }
  }

  lemma {:induction false} DefaultIsWritten(schema: seq<Field>, path: string)
    requires FirstExact(schema, path).Some? && '<' !in path && Normalize(path) == path
    ensures !Unwritten(DefaultSteps(schema), path)
  {
    var first := if FindText(schema[0].path, WILDCARD).Some? then []
                 else [FromOverride(schema[0].path, schema[0].default, Builtin)];
    var later := DefaultSteps(schema[1..]);
    assert DefaultSteps(schema) == first + later;
    if schema[0].path == path {
      NoWildcard(path);
      assert StepPath(DefaultSteps(schema)[0]) == path;
    } else {
      DefaultIsWritten(schema[1..], path);
      var j :| 0 <= j < |later| && StepPath(later[j]) == path;
      assert DefaultSteps(schema)[|first| + j] == later[j];
    }
  }

  lemma RuntimePathIsPlain(m: Mirror)
    requires IsRuntimeMirror(m)
    ensures '<' !in PathOf(m)
  {
  }

  lemma ServicePathIsPlain(m: Mirror)
    requires !IsRuntimeMirror(m)
    ensures '<' !in PathOf(m)
  {
  }

  lemma MirrorPathIsPlain(m: Mirror)
    ensures '<' !in PathOf(m)
  {
    hide PathOf;
    if IsRuntimeMirror(m) {
      RuntimePathIsPlain(m);
    } else {
      ServicePathIsPlain(m);
    }
  }

  lemma MirrorPathIsNormal(m: Mirror)
    ensures Normalize(PathOf(m)) == PathOf(m)
  {
    hide PathOf;
    PathBelongs(m);
  }

  lemma MirrorIsWritten(schema: seq<Field>, o: LoadOptions, m: Mirror)
    requires MirrorsListed(schema)
    ensures !Unwritten(LoadSteps(schema, o), PathOf(m))
  {
    MirrorPathIsPlain(m);
    MirrorPathIsNormal(m);
    DefaultIsWritten(schema, PathOf(m));
    var d := DefaultSteps(schema);
    var j :| 0 <= j < |d| && StepPath(d[j]) == PathOf(m);
    assert LoadSteps(schema, o)[j] == d[j];
  }

  /** Of the writers of `path`, step `i` is the last, and no other outranks its layer. */
  ghost predicate Wins(steps: seq<Step>, i: nat, path: string) {
    && LastWrite(steps, i, path)
    && forall j :: 0 <= j < |steps| && StepPath(steps[j]) == path ==>
         Rank(StepKind(steps[j])) <= Rank(StepKind(steps[i]))
  }

  /** After a successful load, a path is stored iff some layer writes it, and it then holds the text
      and the source of the winning write. */
  lemma LoadedValues(schema: seq<Field>, o: LoadOptions, path: string)
    requires Run(schema, INITIAL, LoadSteps(schema, o)).error.None?
    ensures var t := Run(schema, INITIAL, LoadSteps(schema, o)).state;
            && (path in t.values <==> !Unwritten(LoadSteps(schema, o), path))
            && (path in t.sources <==> path in t.values)
    ensures !Unwritten(LoadSteps(schema, o), path) ==>
              exists i: nat :: Wins(LoadSteps(schema, o), i, path)
                && Holds(Run(schema, INITIAL, LoadSteps(schema, o)).state, path, LoadSteps(schema, o)[i])
  {
    hide Run, LoadSteps, StepPath, StepText, StepLabel, StepKind, Rank;
    var steps := LoadSteps(schema, o);
    LastWriterWins(schema, INITIAL, steps, path);
    LoadIsLayered(schema, o);
    if !Unwritten(steps, path) {
      var i := SomeLastWrite(steps, path);
      assert Wins(steps, i, path);
    }
  }

  /** After a successful load each of the seventeen mirrors is the parse of its winning text. */
  lemma LoadedMirrors(schema: seq<Field>, o: LoadOptions, m: Mirror)
    requires MirrorsListed(schema) && Run(schema, INITIAL, LoadSteps(schema, o)).error.None?
    ensures exists i: nat :: Wins(LoadSteps(schema, o), i, PathOf(m))
              && MirrorValue(Run(schema, INITIAL, LoadSteps(schema, o)).state, m)
                   == Parsed(m, StepText(LoadSteps(schema, o)[i]))
  {
    MirrorIsWritten(schema, o, m);
    LoadedValues(schema, o, PathOf(m));
    RunAgrees(schema, INITIAL, LoadSteps(schema, o));
  }

  /** A property read back: the mirrors print their typed value, other paths their stored text. */
  function GetProp(s: State, path: string): Option<string> {
    var p := Normalize(path);
    if MirrorAt(p).Some? then
      Some(match MirrorValue(s, MirrorAt(p).value)
           case IntValue(i) => FormatInt(i)
           case BoolValue(b) => if b then "true" else "false"
           case TextValue(t) => t)
    else if p in s.values then Some(s.values[p])
    else None
  }

  /** Reading a stored property returns its text, except that a mirrored integer comes back as the
      canonical decimal of its parse. */
  lemma ReadBack(s: State, path: string)
    requires Agrees(s) && Normalize(path) in s.values
    ensures var text := s.values[Normalize(path)];
            match MirrorAt(Normalize(path))
            case None => GetProp(s, path) == Some(text)
            case Some(m) =>
              GetProp(s, path) ==
              Some(if KindOf(m).IntField? then FormatInt(Wrap32(m, IntFromText(text).value)) else text)
  {
    var p := Normalize(path);
    if MirrorAt(p).Some? {
      MirrorPaths(MirrorAt(p).value, p);
    }
  }
}
