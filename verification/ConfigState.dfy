/** The layered configuration: a path-to-text map, a second map recording where each value came
    from, seventeen typed mirrors of the text, and a table of MCP servers. The field schema is a
    parameter; allocation succeeds and no secret store is attached. */
module ConfigState {
  import opened Text

  const SIZE_MAX: int := 0xFFFF_FFFF_FFFF_FFFF

  // ---- The schema ------------------------------------------------------------------------------

  datatype FieldKind = StringField | IntField | BoolField
  datatype Field = Field(path: string, kind: FieldKind, default: string)

  const WILDCARD: string := "<name>"

  predicate HasPrefix(s: string, p: string) {
    |s| >= |p| && s[..|p|] == p
  }

  /** Position of the first occurrence of `p` in `s`, as `strstr` finds it. */
  function FindText(s: string, p: string): (k: Option<nat>)
    ensures k.Some? ==> k.value + |p| <= |s|
  {
    if HasPrefix(s, p) then Some(0)
    else if s == [] then None
    else match FindText(s[1..], p)
      case Some(k) => Some(k + 1)
      case None => None
  }

  /** Whether a path fits a pattern holding `<name>`, which stands for one dotless segment. */
  predicate PatternMatches(path: string, pattern: string) {
    match FindText(pattern, WILDCARD)
    case None => false
    case Some(k) =>
      var suffix := pattern[k + |WILDCARD|..];
      && |path| >= k + |suffix| + 1
      && path[..k] == pattern[..k]
      && path[|path| - |suffix|..] == suffix
      && '.' !in path[k..|path| - |suffix|]
  }

  function FirstExact(schema: seq<Field>, path: string): Option<Field> {
    if schema == [] then None
    else if schema[0].path == path then Some(schema[0])
    else FirstExact(schema[1..], path)
  }

  function FirstPattern(schema: seq<Field>, path: string): Option<Field> {
    if schema == [] then None
    else if PatternMatches(path, schema[0].path) then Some(schema[0])
    else FirstPattern(schema[1..], path)
  }

  /** An exact field first, else the first pattern that fits. */
  function Lookup(schema: seq<Field>, path: string): Option<Field> {
    var exact := FirstExact(schema, path);
    if exact.Some? then exact else FirstPattern(schema, path)
  }

  // ---- Mirrors ---------------------------------------------------------------------------------

  /** The typed fields of the configuration record. */
  datatype Mirror =
    | SchemaVersion | AutonomyLevel | WorkspacePath | ProviderDefault | ProviderModel | ProviderKey
    | ProviderKeyEnv | RouteDefault | MaxRetries | RetryBackoff | TimeoutMs | MemoryBackend
    | GatewayBind | GatewayPort | ProxyEnabled | ProxyUrl | McpDeferred

  datatype Value = IntValue(i: int) | BoolValue(b: bool) | TextValue(t: string)

  function PathOf(m: Mirror): string {
    match m
    case SchemaVersion => "schema.version"
    case AutonomyLevel => "runtime.autonomy_level"
    case WorkspacePath => "runtime.workspace_path"
    case ProviderDefault => "provider.default"
    case ProviderModel => "provider.default_model"
    case ProviderKey => "provider.api_key"
    case ProviderKeyEnv => "provider.api_key_env"
    case RouteDefault => "model.route_default"
    case MaxRetries => "reliability.max_retries"
    case RetryBackoff => "reliability.retry_backoff_ms"
    case TimeoutMs => "reliability.timeout_ms"
    case MemoryBackend => "memory.backend"
    case GatewayBind => "gateway.bind"
    case GatewayPort => "gateway.port"
    case ProxyEnabled => "proxy.enabled"
    case ProxyUrl => "proxy.default_url"
    case McpDeferred => "mcp.deferred_loading"
  }

  function MirrorAt(path: string): (r: Option<Mirror>)
    ensures r.Some? ==> PathOf(r.value) == path
  {
    if path == "schema.version" then Some(SchemaVersion)
    else if path == "runtime.autonomy_level" then Some(AutonomyLevel)
    else if path == "runtime.workspace_path" then Some(WorkspacePath)
    else if path == "provider.default" then Some(ProviderDefault)
    else if path == "provider.default_model" then Some(ProviderModel)
    else if path == "provider.api_key" then Some(ProviderKey)
    else if path == "provider.api_key_env" then Some(ProviderKeyEnv)
    else if path == "model.route_default" then Some(RouteDefault)
    else if path == "reliability.max_retries" then Some(MaxRetries)
    else if path == "reliability.retry_backoff_ms" then Some(RetryBackoff)
    else if path == "reliability.timeout_ms" then Some(TimeoutMs)
    else if path == "memory.backend" then Some(MemoryBackend)
    else if path == "gateway.bind" then Some(GatewayBind)
    else if path == "gateway.port" then Some(GatewayPort)
    else if path == "proxy.enabled" then Some(ProxyEnabled)
    else if path == "proxy.default_url" then Some(ProxyUrl)
    else if path == "mcp.deferred_loading" then Some(McpDeferred)
    else None
  }

  predicate IsRuntimeMirror(m: Mirror) {
    || m.SchemaVersion? || m.AutonomyLevel? || m.WorkspacePath? || m.ProviderDefault? || m.ProviderModel?
    || m.ProviderKey? || m.ProviderKeyEnv? || m.RouteDefault?
  }

  lemma RuntimePathBelongs(m: Mirror)
    requires IsRuntimeMirror(m)
    ensures MirrorAt(PathOf(m)) == Some(m)
  {
  }

  predicate IsRetryMirror(m: Mirror) {
    m.MaxRetries? || m.RetryBackoff?
  }

  lemma RetryPathBelongs(m: Mirror)
    requires IsRetryMirror(m)
    ensures MirrorAt(PathOf(m)) == Some(m)
  {
  }

  predicate IsServiceMirror(m: Mirror) {
    m.TimeoutMs? || m.MemoryBackend? || m.GatewayBind? || m.GatewayPort?
  }

  lemma ServicePathBelongs(m: Mirror)
    requires IsServiceMirror(m)
    ensures MirrorAt(PathOf(m)) == Some(m)
  {
  }

  lemma ProxyPathBelongs(m: Mirror)
    requires m.ProxyEnabled? || m.ProxyUrl?
    ensures MirrorAt(PathOf(m)) == Some(m)
  {
  }

  lemma DeferredPathBelongs()
    ensures MirrorAt(PathOf(McpDeferred)) == Some(McpDeferred)
  {
  }

  lemma PathBelongs(m: Mirror)
    ensures MirrorAt(PathOf(m)) == Some(m)
  {
    hide MirrorAt, PathOf;
    if IsRuntimeMirror(m) {
      RuntimePathBelongs(m);
    } else if IsRetryMirror(m) {
      RetryPathBelongs(m);
    } else if IsServiceMirror(m) {
      ServicePathBelongs(m);
    } else if m.McpDeferred? {
      DeferredPathBelongs();
    } else {
      ProxyPathBelongs(m);
    }
  }

  /** Each mirror has its own path. */
  lemma MirrorPaths(m: Mirror, path: string)
    ensures MirrorAt(path) == Some(m) <==> path == PathOf(m)
  {
    PathBelongs(m);
  }

  function KindOf(m: Mirror): FieldKind {
    match m
    case SchemaVersion => IntField
    case MaxRetries => IntField
    case RetryBackoff => IntField
    case TimeoutMs => IntField
    case GatewayPort => IntField
    case ProxyEnabled => BoolField
    case McpDeferred => BoolField
    case _ => StringField
  }

  function Saturate(v: int): int64 {
    if v > INT64_MAX then INT64_MAX else if v < INT64_MIN then INT64_MIN else v
  }

  function IntFromText(s: string): Option<int64> {
    if s == [] || |s| >= 64 then None
    else
      var scan := ScanInt(CStr(s));
      if scan.Scanned? && scan.rest == [] then Some(Saturate(scan.value)) else None
  }

  function BoolFromText(s: string): Option<bool> {
    if s == "true" then Some(true) else if s == "false" then Some(false) else None
  }

  predicate TypeAccepts(kind: FieldKind, text: string) {
    match kind
    case StringField => true
    case IntField => IntFromText(text).Some?
    case BoolField => BoolFromText(text).Some?
  }

  function Wrap32(m: Mirror, v: int): int {
    if m.SchemaVersion? then v % 0x1_0000_0000 else v
  }

  /** The value assigned to a mirror by a schema field of type `kind`: what that type did not parse
      is left at zero. */
  function Assigned(m: Mirror, kind: FieldKind, text: string): Value {
    match KindOf(m)
    case StringField => TextValue(text)
    case IntField =>
      IntValue(if kind.IntField? && IntFromText(text).Some? then Wrap32(m, IntFromText(text).value) else 0)
    case BoolField =>
      BoolValue(kind.BoolField? && BoolFromText(text) == Some(true))
  }

  function ZeroOf(m: Mirror): Value {
    match KindOf(m)
    case StringField => TextValue("")
    case IntField => IntValue(0)
    case BoolField => BoolValue(false)
  }

  /** The parse of a mirror's stored text. */
  function Parsed(m: Mirror, text: string): Value {
    Assigned(m, KindOf(m), text)
  }

  // ---- MCP servers -----------------------------------------------------------------------------

  datatype Transport = Stdio | Sse | Http | UnknownTransport

  datatype Server = Server(
    name: string, transport: Transport, command: string, args: string, url: string, headers: string,
    enabled: bool, deferred: bool, deferredSet: bool)

  datatype Slot = Name | TransportSlot | Command | Args | Url | Headers | Enabled | Deferred | OtherSlot

  /** What a slot is set to, already converted from its text. */
  datatype SlotValue = TextSlot(text: string) | TransportValue(transport: Transport) | FlagSlot(flag: bool) | NoValue

  const MCP_PREFIX: string := "mcp.servers."

  datatype ServerPath = ServerPath(index: nat, field: string)

  /** The server index and field named by a path: `mcp.servers.<digits>.<field>`. */
  function McpPath(path: string): Option<ServerPath> {
    if !HasPrefix(path, MCP_PREFIX) then None
    else
      var rest := path[|MCP_PREFIX|..];
      var k := LeadingDigits(rest);
      if k == 0 || k + 1 >= |rest| || rest[k] != '.' || DigitsValue(rest[..k]) > SIZE_MAX then None
      else Some(ServerPath(DigitsValue(rest[..k]), rest[k + 1..]))
  }

  function ServerKey(digits: string, field: string): string {
    MCP_PREFIX + (digits + ("." + field))
  }

  /** Every spelling of an index names it. */
  lemma ServerKeyReads(digits: string, field: string)
    requires digits != [] && AllDigits(digits) && DigitsValue(digits) <= SIZE_MAX && field != []
    ensures McpPath(ServerKey(digits, field)) == Some(ServerPath(DigitsValue(digits), field))
  {
    hide LeadingDigits, DigitsValue;
    var path := ServerKey(digits, field);
    var rest := path[|MCP_PREFIX|..];
    assert rest == digits + ("." + field) && rest[..|digits|] == digits && HasPrefix(path, MCP_PREFIX);
    DigitsReach(rest, |digits|);
    assert rest[|digits| + 1..] == field;
  }

  function SlotOf(field: string): Slot {
    if field == "name" then Name
    else if field == "transport" then TransportSlot
    else if field == "command" then Command
    else if field == "args" then Args
    else if field == "url" then Url
    else if field == "headers" then Headers
    else if field == "enabled" then Enabled
    else if field == "deferred_loading" then Deferred
    else OtherSlot
  }

  function TransportFrom(text: string): Transport {
    if text == "stdio" then Stdio else if text == "sse" then Sse else if text == "http" then Http
    else UnknownTransport
  }

  /** The converted text, or None when a flag slot is given something else than a flag. */
  function SlotValueOf(slot: Slot, text: string): Option<SlotValue> {
    match slot
    case TransportSlot => Some(TransportValue(TransportFrom(text)))
    case OtherSlot => Some(NoValue)
    case Enabled => if BoolFromText(text).Some? then Some(FlagSlot(BoolFromText(text).value)) else None
    case Deferred => if BoolFromText(text).Some? then Some(FlagSlot(BoolFromText(text).value)) else None
    case _ => Some(TextSlot(text))
  }

  predicate Fits(slot: Slot, v: SlotValue) {
    match slot
    case TransportSlot => v.TransportValue?
    case OtherSlot => v.NoValue?
    case Enabled => v.FlagSlot?
    case Deferred => v.FlagSlot?
    case _ => v.TextSlot?
  }

  function SetSlot(server: Server, slot: Slot, v: SlotValue): Server
    requires Fits(slot, v)
  {
    match slot
    case Name => server.(name := v.text)
    case TransportSlot => server.(transport := v.transport)
    case Command => server.(command := v.text)
    case Args => server.(args := v.text)
    case Url => server.(url := v.text)
    case Headers => server.(headers := v.text)
    case Enabled => server.(enabled := v.flag)
    case Deferred => server.(deferred := v.flag, deferredSet := true)
    case OtherSlot => server
  }

  function FreshServer(deferred: bool): Server {
    Server("", UnknownTransport, "", "", "", "", true, deferred, false)
  }

  /** The table, extended with fresh servers to hold at least `count`. */
  function Grow(servers: seq<Server>, deferred: bool, count: nat): (r: seq<Server>)
    ensures |r| == if count > |servers| then count else |servers|
    ensures forall i :: 0 <= i < |r| ==> r[i] == if i < |servers| then servers[i] else FreshServer(deferred)
  {
    if count <= |servers| then servers
    else servers + seq(count - |servers|, i => FreshServer(deferred))
  }

  /** The servers without a setting of their own follow the global flag. */
  function Redefer(servers: seq<Server>, deferred: bool): (r: seq<Server>)
    ensures |r| == |servers|
    ensures forall i :: 0 <= i < |r| ==>
              r[i] == if servers[i].deferredSet then servers[i] else servers[i].(deferred := deferred)
  {
    seq(|servers|, i requires 0 <= i < |servers| =>
      if servers[i].deferredSet then servers[i] else servers[i].(deferred := deferred))
  }

  // ---- The state and one write -----------------------------------------------------------------

  datatype State = State(
    values: map<string, string>, sources: map<string, string>, mirrors: map<Mirror, Value>,
    servers: seq<Server>)

  const INITIAL: State := State(map[], map[], map[], [])

  function MirrorValue(s: State, m: Mirror): Value {
    if m in s.mirrors then s.mirrors[m] else ZeroOf(m)
  }

  function DeferredFlag(s: State): bool {
    MirrorValue(s, McpDeferred) == BoolValue(true)
  }

  /** What a property does besides storing its text. */
  datatype Effect =
    | NoEffect
    | SetMirror(mirror: Mirror, value: Value)
    | SetServer(index: nat, slot: Slot, slotValue: SlotValue)

  function ApplyEffect(s: State, e: Effect): State
    requires e.SetServer? ==> Fits(e.slot, e.slotValue)
  {
    match e
    case NoEffect => s
    case SetMirror(m, v) =>
      s.(mirrors := s.mirrors[m := v],
         servers := if m.McpDeferred? then Redefer(s.servers, v == BoolValue(true)) else s.servers)
    case SetServer(index, slot, v) =>
      var grown := Grow(s.servers, DeferredFlag(s), index + 1);
      s.(servers := grown[index := SetSlot(grown[index], slot, v)])
  }

  datatype SourceKind = Builtin | DefaultFile | WorkspaceMarker | ExplicitFile | Environment | Runtime

  function KindName(k: SourceKind): string {
    match k
    case Builtin => "builtin"
    case DefaultFile => "default-file"
    case WorkspaceMarker => "workspace-marker"
    case ExplicitFile => "explicit-file"
    case Environment => "environment"
    case Runtime => "runtime"
  }

  /** The recorded source of a value. */
  function Label(kind: SourceKind, sourcePath: string): string {
    if sourcePath == [] then KindName(kind) else KindName(kind) + ":" + sourcePath
  }

  function Normalize(path: string): string {
    if path == "schema_version" then "schema.version" else path
  }

  /** Schema fields outside the mirrors that the setter knows. */
  predicate KnownPath(path: string) {
    || (exists p :: p in KNOWN_PREFIXES && |path| > |p| && HasPrefix(path, p))
    || path in KNOWN_PATHS
  }

  const KNOWN_PREFIXES: set<string> := {
    "logging.", "gateway.", "security.", "agent.", "tools.", "media.", "browser.", "hardware.", "sop.",
    "heartbeat.", "cron.", "channels.", "providers.models."}

  const KNOWN_PATHS: set<string> := {
    "autonomy.level", "autonomy.shell_enabled", "autonomy.workspace_only", "autonomy.forbidden_paths",
    "autonomy.shell_env_passthrough", "autonomy.auto_approve", "autonomy.always_ask",
    "autonomy.never_allow", "autonomy.auto_approve.tools", "autonomy.always_ask.tools",
    "autonomy.never_allow.tools", "autonomy.allowed_commands", "autonomy.forbidden_commands",
    "tool_filter_groups"}

  /** The effect of setting a property to a text, or the error key of its refusal; it depends on
      nothing but the schema, the path and the text. */
  function EffectOf(schema: seq<Field>, path: string, text: string): (r: Result<Effect>)
    ensures r.Ok? && r.value.SetServer? ==> Fits(r.value.slot, r.value.slotValue)
    ensures r.Ok? && r.value.SetMirror? ==> MirrorAt(path) == Some(r.value.mirror)
  {
    match Lookup(schema, path)
    case None =>
      (match McpPath(path)
       case None => Ok(NoEffect)
       case Some(p) =>
         var v := SlotValueOf(SlotOf(p.field), text);
         if v.None? then Err("sc.config.invalid_bool") else Ok(SetServer(p.index, SlotOf(p.field), v.value)))
    case Some(field) =>
      if !TypeAccepts(field.kind, text) then Err("sc.config.invalid_type")
      else if MirrorAt(path).Some? then
        Ok(SetMirror(MirrorAt(path).value, Assigned(MirrorAt(path).value, field.kind, text)))
      else if KnownPath(path) then Ok(NoEffect)
      else Err("sc.config.unknown_field")
  }

  /** The state after a call, and the error key if it failed. */
  datatype Outcome = Outcome(state: State, error: Option<string>)

  /** A failed server flag has already stored the text and grown the table. */
  function AfterRefusal(schema: seq<Field>, s: State, path: string, text: string): State {
    if Lookup(schema, path).None? && McpPath(path).Some? then
      s.(values := s.values[path := text],
         servers := Grow(s.servers, DeferredFlag(s), McpPath(path).value.index + 1))
    else s
  }

  function SetProp(schema: seq<Field>, s: State, path: string, text: string, kind: SourceKind): Outcome {
    var p := Normalize(path);
    match EffectOf(schema, p, text)
    case Err(code) => Outcome(AfterRefusal(schema, s, p, text), Some(code))
    case Ok(e) =>
      var t := ApplyEffect(s, e);
      Outcome(t.(values := t.values[p := text], sources := t.sources[p := Label(kind, KindName(kind))]), None)
  }

  // ---- Sources ---------------------------------------------------------------------------------

  datatype Toml =
    | TomlString(s: string)
    | TomlInteger(i: int64)
    | TomlBool(b: bool)
    | TomlArray(s: string)
    | TomlRaw(s: string)

  datatype Entry = Entry(key: string, value: Toml)

  function TomlText(v: Toml): string {
    match v
    case TomlString(s) => s
    case TomlInteger(i) => FormatInt(i)
    case TomlBool(b) => if b then "true" else "false"
    case TomlArray(s) => s
    case TomlRaw(s) => s
  }

  predicate TomlFits(kind: FieldKind, v: Toml) {
    match kind
    case StringField => v.TomlString? || v.TomlRaw? || v.TomlArray?
    case IntField => v.TomlInteger?
    case BoolField => v.TomlBool?
  }

  function ApplyEntry(schema: seq<Field>, s: State, e: Entry, kind: SourceKind, sourcePath: string): Outcome {
    var p := Normalize(e.key);
    var field := Lookup(schema, p);
    if field.Some? && !TomlFits(field.value.kind, e.value) then Outcome(s, Some("sc.config.invalid_type"))
    else
      var r := SetProp(schema, s, p, TomlText(e.value), kind);
      if r.error.Some? then r
      else Outcome(r.state.(sources := r.state.sources[p := Label(kind, sourcePath)]), None)
  }

  /** The entries in the given order, up to the first that fails. */
  function ApplyToml(schema: seq<Field>, s: State, entries: seq<Entry>, kind: SourceKind, sourcePath: string): Outcome
    decreases |entries|
  {
    if entries == [] then Outcome(s, None)
    else
      var r := ApplyToml(schema, s, entries[..|entries| - 1], kind, sourcePath);
      if r.error.Some? then r
      else ApplyEntry(schema, r.state, entries[|entries| - 1], kind, sourcePath)
  }

  lemma ApplyNext(schema: seq<Field>, s: State, entries: seq<Entry>, i: nat, kind: SourceKind, sourcePath: string)
    requires i < |entries|
    ensures var r := ApplyToml(schema, s, entries[..i], kind, sourcePath);
            ApplyToml(schema, s, entries[..i + 1], kind, sourcePath) ==
            if r.error.Some? then r else ApplyEntry(schema, r.state, entries[i], kind, sourcePath)
  {
    hide ApplyEntry;
    var more := entries[..i + 1];
    assert more[..i] == entries[..i] && more[i] == entries[i];
  }

  lemma {:induction false} ApplyStops(
    schema: seq<Field>, s: State, entries: seq<Entry>, i: nat, kind: SourceKind, sourcePath: string)
    requires i <= |entries| && ApplyToml(schema, s, entries[..i], kind, sourcePath).error.Some?
    ensures ApplyToml(schema, s, entries, kind, sourcePath) == ApplyToml(schema, s, entries[..i], kind, sourcePath)
    decreases |entries| - i
  {
    hide ApplyEntry, ApplyToml;
    if i < |entries| {
      ApplyNext(schema, s, entries, i, kind, sourcePath);
      ApplyStops(schema, s, entries, i + 1, kind, sourcePath);
    } else {
      assert entries[..i] == entries;
    }
  }
}
