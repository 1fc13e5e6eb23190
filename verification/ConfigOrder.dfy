/** A TOML source is a hash table, applied in the order of its slots. Exactly when does the order
    not matter? */
module ConfigOrder {
  import opened Text
  import opened ConfigState

  /** An accepted entry: the text stored at a path, and the effect beside it. */
  datatype Write = Write(path: string, text: string, effect: Effect)

  function Resolve(schema: seq<Field>, e: Entry): (r: Result<Write>)
    ensures r.Ok? ==> Sound(r.value) && EffectOf(schema, r.value.path, r.value.text) == Ok(r.value.effect)
  {
    var p := Normalize(e.key);
    var field := Lookup(schema, p);
    if field.Some? && !TomlFits(field.value.kind, e.value) then Err("sc.config.invalid_type")
    else match EffectOf(schema, p, TomlText(e.value))
      case Err(code) => Err(code)
      case Ok(effect) => Ok(Write(p, TomlText(e.value), effect))
  }

  predicate Sound(w: Write) {
    && (w.effect.SetServer? ==> Fits(w.effect.slot, w.effect.slotValue))
    && (w.effect.SetMirror? ==> MirrorAt(w.path) == Some(w.effect.mirror))
  }

  function Store(s: State, w: Write, mark: string): State {
    s.(values := s.values[w.path := w.text], sources := s.sources[w.path := mark])
  }

  function Do(s: State, w: Write, mark: string): State
    requires Sound(w)
  {
    Store(ApplyEffect(s, w.effect), w, mark)
  }

  lemma EntryIsWrite(schema: seq<Field>, s: State, e: Entry, kind: SourceKind, sourcePath: string)
    ensures var r := ApplyEntry(schema, s, e, kind, sourcePath);
            && (r.error.None? <==> Resolve(schema, e).Ok?)
            && (r.error.None? ==> r.state == Do(s, Resolve(schema, e).value, Label(kind, sourcePath)))
  {
    hide Lookup, McpPath, TomlText, SlotValueOf, SlotOf, ApplyEffect, MirrorAt, KnownPath, Label;
    assert Normalize(Normalize(e.key)) == Normalize(e.key);
  }

  // ---- When two writes commute -----------------------------------------------------------------

  /** The writes store different texts at one path, or different values in one slot of one server. */
  predicate Clash(a: Write, b: Write) {
    || (a.path == b.path && a.text != b.text)
    || (a.effect.SetServer? && b.effect.SetServer? && a.effect.index == b.effect.index
        && a.effect.slot == b.effect.slot && a.effect.slotValue != b.effect.slotValue)
  }

  lemma SlotsCommute(x: Server, f: Slot, v: SlotValue, g: Slot, w: SlotValue)
    requires Fits(f, v) && Fits(g, w) && (f == g ==> v == w)
    ensures SetSlot(SetSlot(x, f, v), g, w) == SetSlot(SetSlot(x, g, w), f, v)
  {
  }

  lemma ServerWritesCommute(s: State, a: Effect, b: Effect)
    requires a.SetServer? && Fits(a.slot, a.slotValue) && b.SetServer? && Fits(b.slot, b.slotValue)
    requires a.index == b.index && a.slot == b.slot ==> a.slotValue == b.slotValue
    ensures ApplyEffect(ApplyEffect(s, a), b) == ApplyEffect(ApplyEffect(s, b), a)
  {
    var ab := ApplyEffect(ApplyEffect(s, a), b).servers;
    var ba := ApplyEffect(ApplyEffect(s, b), a).servers;
    forall k | 0 <= k < |ab|
      ensures ab[k] == ba[k]
    {
      if k == a.index && k == b.index {
        var x := if k < |s.servers| then s.servers[k] else FreshServer(DeferredFlag(s));
        SlotsCommute(x, a.slot, a.slotValue, b.slot, b.slotValue);
      }
    }
    assert ab == ba;
  }

  /** Setting the global flag commutes with server fields: a server's own setting survives it, and
      the others follow it whether they are grown before or after. */
  lemma FlagAndServerCommute(s: State, flag: Effect, b: Effect)
    requires flag.SetMirror? && b.SetServer? && Fits(b.slot, b.slotValue)
    ensures ApplyEffect(ApplyEffect(s, flag), b) == ApplyEffect(ApplyEffect(s, b), flag)
  {
    hide SetSlot;
    var fb := ApplyEffect(ApplyEffect(s, flag), b).servers;
    var bf := ApplyEffect(ApplyEffect(s, b), flag).servers;
    if flag.mirror.McpDeferred? {
      SlotAndFlagCommute(FreshServer(DeferredFlag(s)), b, flag.value == BoolValue(true));
      forall k | 0 <= k < |fb|
        ensures fb[k] == bf[k]
      {
        if k == b.index < |s.servers| {
          SlotAndFlagCommute(s.servers[k], b, flag.value == BoolValue(true));
        }
      }
    }
    assert fb == bf;
  }

  function Redeferred(server: Server, deferred: bool): Server {
    if server.deferredSet then server else server.(deferred := deferred)
  }

  lemma SlotAndFlagCommute(server: Server, b: Effect, deferred: bool)
    requires b.SetServer? && Fits(b.slot, b.slotValue)
    ensures SetSlot(Redeferred(server, deferred), b.slot, b.slotValue)
         == Redeferred(SetSlot(server, b.slot, b.slotValue), deferred)
  {
  }

  lemma EffectsCommute(s: State, a: Write, b: Write)
    requires Sound(a) && Sound(b) && !Clash(a, b) && a.path != b.path
    ensures ApplyEffect(ApplyEffect(s, a.effect), b.effect) == ApplyEffect(ApplyEffect(s, b.effect), a.effect)
  {
    match (a.effect, b.effect)
    case (SetServer(_, _, _), SetServer(_, _, _)) => ServerWritesCommute(s, a.effect, b.effect);
    case (SetMirror(_, _), SetServer(_, _, _)) => FlagAndServerCommute(s, a.effect, b.effect);
    case (SetServer(_, _, _), SetMirror(_, _)) => FlagAndServerCommute(s, b.effect, a.effect);
    case (SetMirror(m, v), SetMirror(k, w)) =>
      assert m != k;
      assert s.mirrors[m := v][k := w] == s.mirrors[k := w][m := v];
    case _ =>
  }

  lemma EffectIgnoresMaps(s: State, e: Effect, w: Write, mark: string)
    requires e.SetServer? ==> Fits(e.slot, e.slotValue)
    ensures ApplyEffect(Store(s, w, mark), e) == Store(ApplyEffect(s, e), w, mark)
  {
  }

  lemma StoresCommute(s: State, a: Write, b: Write, mark: string)
    requires a.path != b.path
    ensures Store(Store(s, a, mark), b, mark) == Store(Store(s, b, mark), a, mark)
  {
    assert s.values[a.path := a.text][b.path := b.text] == s.values[b.path := b.text][a.path := a.text];
    assert s.sources[a.path := mark][b.path := mark] == s.sources[b.path := mark][a.path := mark];
  }

  lemma DoTwice(s: State, a: Write, b: Write, mark: string)
    requires Sound(a) && Sound(b)
    ensures Do(Do(s, a, mark), b, mark)
            == Store(Store(ApplyEffect(ApplyEffect(s, a.effect), b.effect), a, mark), b, mark)
  {
    EffectIgnoresMaps(ApplyEffect(s, a.effect), b.effect, a, mark);
  }

  lemma WritesCommute(s: State, a: Write, b: Write, mark: string)
    requires Sound(a) && Sound(b) && !Clash(a, b) && (a.path == b.path ==> a == b)
    ensures Do(Do(s, a, mark), b, mark) == Do(Do(s, b, mark), a, mark)
  {
    if a != b {
      EffectsCommute(s, a, b);
      DoTwice(s, a, b, mark);
      DoTwice(s, b, a, mark);
      StoresCommute(ApplyEffect(ApplyEffect(s, a.effect), b.effect), a, b, mark);
    }
  }

  function GetSlot(x: Server, f: Slot): SlotValue {
    match f
    case Name => TextSlot(x.name)
    case TransportSlot => TransportValue(x.transport)
    case Command => TextSlot(x.command)
    case Args => TextSlot(x.args)
    case Url => TextSlot(x.url)
    case Headers => TextSlot(x.headers)
    case Enabled => FlagSlot(x.enabled)
    case Deferred => FlagSlot(x.deferred)
    case OtherSlot => NoValue
  }

  /** Clashing writes leave different states in the two orders. */
  lemma ClashShows(s: State, a: Write, b: Write, mark: string)
    requires Sound(a) && Sound(b) && Clash(a, b)
    ensures Do(Do(s, a, mark), b, mark) != Do(Do(s, b, mark), a, mark)
  {
    hide MirrorAt, DeferredFlag;
    var ab, ba := Do(Do(s, a, mark), b, mark), Do(Do(s, b, mark), a, mark);
    if a.path == b.path && a.text != b.text {
      assert ab.values[a.path] == b.text && ba.values[a.path] == a.text;
    } else {
      var k, f := a.effect.index, a.effect.slot;
      assert GetSlot(ab.servers[k], f) == b.effect.slotValue;
      assert GetSlot(ba.servers[k], f) == a.effect.slotValue;
    }
  }

  // ---- Runs of writes --------------------------------------------------------------------------

  predicate AllSound(ws: seq<Write>) {
    forall i :: 0 <= i < |ws| ==> Sound(ws[i])
  }

  function DoAll(s: State, ws: seq<Write>, mark: string): State
    requires AllSound(ws)
    decreases |ws|
  {
    if ws == [] then s else Do(DoAll(s, ws[..|ws| - 1], mark), ws[|ws| - 1], mark)
  }

  /** Any two writes of the run commute. */
  ghost predicate Peaceful(ws: seq<Write>) {
    forall a, b :: a in ws && b in ws ==> !Clash(a, b) && (a.path == b.path ==> a == b)
  }

  function Without<T>(s: seq<T>, k: nat): seq<T>
    requires k < |s|
  {
    s[..k] + s[k + 1..]
  }

  lemma DoLast(s: State, ws: seq<Write>, w: Write, mark: string)
    requires AllSound(ws) && Sound(w)
    ensures DoAll(s, ws + [w], mark) == Do(DoAll(s, ws, mark), w, mark)
  {
    assert (ws + [w])[..|ws|] == ws;
  }

  lemma WithoutLast<T>(s: seq<T>, k: nat)
    requires k < |s| - 1
    ensures Without(s, k) == Without(s[..|s| - 1], k) + [s[|s| - 1]]
  {
  }

  lemma {:induction false} MoveToEnd(s: State, ws: seq<Write>, k: nat, mark: string)
    requires k < |ws| && AllSound(ws) && Peaceful(ws)
    ensures DoAll(s, ws, mark) == Do(DoAll(s, Without(ws, k), mark), ws[k], mark)
    decreases |ws|
  {
    hide Do, Clash, Sound;
    var n := |ws| - 1;
    if k == n {
      assert Without(ws, k) == ws[..n];
    } else {
      var init := ws[..n];
      MoveToEnd(s, init, k, mark);
      WritesCommute(DoAll(s, Without(init, k), mark), ws[k], ws[n], mark);
      WithoutLast(ws, k);
      DoLast(s, Without(init, k), ws[n], mark);
    }
  }

  lemma IndexIn(ws: seq<Write>, w: Write) returns (k: nat)
    requires w in multiset(ws)
    ensures k < |ws| && ws[k] == w
  {
    assert w in ws;
    k :| k < |ws| && ws[k] == w;
  }

  lemma WithoutMultiset<T>(s: seq<T>, k: nat)
    requires k < |s|
    ensures multiset(Without(s, k)) == multiset(s) - multiset{s[k]}
  {
    assert s == s[..k] + [s[k]] + s[k + 1..];
  }

  lemma PermutationKeeps(ws: seq<Write>, vs: seq<Write>)
    requires multiset(ws) == multiset(vs)
    ensures |ws| == |vs| && (AllSound(ws) ==> AllSound(vs)) && (Peaceful(ws) ==> Peaceful(vs))
  {
    assert |multiset(ws)| == |ws| && |multiset(vs)| == |vs|;
    forall w | w in vs
      ensures w in ws
    {
      assert w in multiset(vs);
    }
    forall i | 0 <= i < |vs|
      ensures vs[i] in ws
    {
    }
  }

  lemma WithoutKeeps(ws: seq<Write>, k: nat)
    requires k < |ws|
    ensures (AllSound(ws) ==> AllSound(Without(ws, k))) && (Peaceful(ws) ==> Peaceful(Without(ws, k)))
  {
    assert forall w :: w in Without(ws, k) ==> w in ws;
  }

  /** Without clashes every order of the writes leaves the same state. */
  lemma {:induction false} PeacefulOrder(s: State, ws: seq<Write>, vs: seq<Write>, mark: string)
    requires AllSound(ws) && AllSound(vs) && Peaceful(ws) && multiset(ws) == multiset(vs)
    ensures DoAll(s, ws, mark) == DoAll(s, vs, mark)
    decreases |ws|
  {
    PermutationKeeps(ws, vs);
    if ws != [] {
      var n := |ws| - 1;
      var k := IndexIn(vs, ws[n]);
      WithoutMultiset(ws, n);
      WithoutMultiset(vs, k);
      WithoutKeeps(ws, n);
      WithoutKeeps(vs, k);
      assert Without(ws, n) == ws[..n];
      PeacefulOrder(s, ws[..n], Without(vs, k), mark);
      MoveToEnd(s, vs, k, mark);
    }
  }

  // ---- Sources ---------------------------------------------------------------------------------

  predicate Accepted(schema: seq<Field>, entries: seq<Entry>) {
    forall i :: 0 <= i < |entries| ==> Resolve(schema, entries[i]).Ok?
  }

  function ResolveAll(schema: seq<Field>, entries: seq<Entry>): (ws: seq<Write>)
    requires Accepted(schema, entries)
    ensures |ws| == |entries| && AllSound(ws)
    ensures forall i :: 0 <= i < |ws| ==> ws[i] == Resolve(schema, entries[i]).value
  {
    seq(|entries|, i requires 0 <= i < |entries| => Resolve(schema, entries[i]).value)
  }

  lemma EmptySource(schema: seq<Field>)
    ensures Accepted(schema, []) && ResolveAll(schema, []) == []
  {
  }

  lemma AcceptedLast(schema: seq<Field>, init: seq<Entry>, e: Entry)
    ensures Accepted(schema, init + [e]) <==> Accepted(schema, init) && Resolve(schema, e).Ok?
  {
    hide Resolve;
    var all := init + [e];
    assert all[|init|] == e && forall i :: 0 <= i < |init| ==> all[i] == init[i];
  }

  lemma ResolveLast(schema: seq<Field>, init: seq<Entry>, e: Entry)
    requires Accepted(schema, init + [e]) && Accepted(schema, init) && Resolve(schema, e).Ok?
    ensures ResolveAll(schema, init + [e]) == ResolveAll(schema, init) + [Resolve(schema, e).value]
  {
    hide Resolve;
  }

  /** A source succeeds iff each entry is acceptable by itself, and then it is a run of writes. */
  lemma {:induction false} SourceIsRun(
    schema: seq<Field>, s: State, entries: seq<Entry>, kind: SourceKind, sourcePath: string)
    ensures var r := ApplyToml(schema, s, entries, kind, sourcePath);
            && (r.error.None? <==> Accepted(schema, entries))
            && (Accepted(schema, entries) ==>
                  r.state == DoAll(s, ResolveAll(schema, entries), Label(kind, sourcePath)))
    decreases |entries|
  {
    hide ApplyEntry, Resolve, Do, Label, Sound, Accepted, ResolveAll;
    if entries == [] {
      EmptySource(schema);
    } else {
      var n := |entries| - 1;
      var init := entries[..n];
      SourceIsRun(schema, s, init, kind, sourcePath);
      EntryIsWrite(schema, ApplyToml(schema, s, init, kind, sourcePath).state, entries[n], kind, sourcePath);
      assert entries == init + [entries[n]];
      AcceptedLast(schema, init, entries[n]);
      if Accepted(schema, entries) {
        ResolveLast(schema, init, entries[n]);
        DoLast(s, ResolveAll(schema, init), Resolve(schema, entries[n]).value, Label(kind, sourcePath));
      }
    }
  }

  /** Two acceptable entries whose writes clash. */
  predicate EntriesClash(schema: seq<Field>, e: Entry, f: Entry) {
    var a, b := Resolve(schema, e), Resolve(schema, f);
    a.Ok? && b.Ok? && Clash(a.value, b.value)
  }

  lemma ClashIsSymmetric(schema: seq<Field>, e: Entry, f: Entry)
    ensures EntriesClash(schema, e, f) ==> EntriesClash(schema, f, e) && e != f
  {
    hide Resolve;
  }

  /** Both fail, or both succeed with the same state. */
  predicate SameOutcome(a: Outcome, b: Outcome) {
    (a.error.None? <==> b.error.None?) && (a.error.None? ==> a.state == b.state)
  }

  /** Every order of the entries has the same outcome. */
  ghost predicate OrderFree(schema: seq<Field>, s: State, entries: seq<Entry>, kind: SourceKind, sourcePath: string) {
    forall other: seq<Entry> :: multiset(other) == multiset(entries) ==>
      SameOutcome(ApplyToml(schema, s, entries, kind, sourcePath), ApplyToml(schema, s, other, kind, sourcePath))
  }

  lemma AcceptedPermutation(schema: seq<Field>, entries: seq<Entry>, other: seq<Entry>)
    requires multiset(other) == multiset(entries) && Accepted(schema, entries)
    ensures Accepted(schema, other)
  {
    forall i | 0 <= i < |other|
      ensures Resolve(schema, other[i]).Ok?
    {
      assert other[i] in multiset(other);
      assert other[i] in entries;
    }
  }

  lemma AddBack<T>(s: seq<T>, k: nat)
    requires k < |s|
    ensures multiset(s) == multiset(Without(s, k)) + multiset{s[k]}
  {
    assert s == s[..k] + [s[k]] + s[k + 1..];
  }

  /** Equal elements having equal images, permuted elements have permuted images. */
  lemma {:induction false} PermutedImages<T, U>(a: seq<T>, b: seq<T>, x: seq<U>, y: seq<U>)
    requires |a| == |x| && |b| == |y| && multiset(a) == multiset(b)
    requires forall i, j :: 0 <= i < |a| && 0 <= j < |b| && a[i] == b[j] ==> x[i] == y[j]
    ensures multiset(x) == multiset(y)
    decreases |a|
  {
    assert |a| == |multiset(a)| == |multiset(b)| == |b|;
    if a != [] {
      var n := |a| - 1;
      assert a[n] in multiset(b);
      var k :| 0 <= k < |b| && b[k] == a[n];
      WithoutMultiset(a, n);
      WithoutMultiset(b, k);
      PermutedImages(Without(a, n), Without(b, k), Without(x, n), Without(y, k));
      AddBack(x, n);
      AddBack(y, k);
    }
  }

  lemma ResolvedMultiset(schema: seq<Field>, entries: seq<Entry>, other: seq<Entry>)
    requires Accepted(schema, entries) && Accepted(schema, other) && multiset(entries) == multiset(other)
    ensures multiset(ResolveAll(schema, entries)) == multiset(ResolveAll(schema, other))
  {
    hide Resolve;
    PermutedImages(entries, other, ResolveAll(schema, entries), ResolveAll(schema, other));
  }

  lemma NoClashIsPeaceful(schema: seq<Field>, entries: seq<Entry>)
    requires Accepted(schema, entries)
    requires forall e, f :: e in entries && f in entries ==> !EntriesClash(schema, e, f)
    ensures Peaceful(ResolveAll(schema, entries))
  {
    var ws := ResolveAll(schema, entries);
    forall a, b | a in ws && b in ws
      ensures !Clash(a, b) && (a.path == b.path ==> a == b)
    {
      var i :| 0 <= i < |ws| && ws[i] == a;
      var j :| 0 <= j < |ws| && ws[j] == b;
      assert !EntriesClash(schema, entries[i], entries[j]);
    }
  }

  lemma NoClashIsOrderFree(schema: seq<Field>, s: State, entries: seq<Entry>, kind: SourceKind, sourcePath: string)
    requires Accepted(schema, entries)
    requires forall e, f :: e in entries && f in entries ==> !EntriesClash(schema, e, f)
    ensures OrderFree(schema, s, entries, kind, sourcePath)
  {
    NoClashIsPeaceful(schema, entries);
    SourceIsRun(schema, s, entries, kind, sourcePath);
    forall other: seq<Entry> | multiset(other) == multiset(entries)
      ensures SameOutcome(ApplyToml(schema, s, entries, kind, sourcePath),
                          ApplyToml(schema, s, other, kind, sourcePath))
    {
      AcceptedPermutation(schema, entries, other);
      ResolvedMultiset(schema, entries, other);
      SourceIsRun(schema, s, other, kind, sourcePath);
      PeacefulOrder(s, ResolveAll(schema, entries), ResolveAll(schema, other), Label(kind, sourcePath));
    }
  }

  lemma RefusalIsOrderFree(schema: seq<Field>, s: State, entries: seq<Entry>, kind: SourceKind, sourcePath: string)
    requires !Accepted(schema, entries)
    ensures OrderFree(schema, s, entries, kind, sourcePath)
  {
    SourceIsRun(schema, s, entries, kind, sourcePath);
    forall other: seq<Entry> | multiset(other) == multiset(entries)
      ensures SameOutcome(ApplyToml(schema, s, entries, kind, sourcePath),
                          ApplyToml(schema, s, other, kind, sourcePath))
    {
      if Accepted(schema, other) {
        AcceptedPermutation(schema, other, entries);
      }
      SourceIsRun(schema, s, other, kind, sourcePath);
    }
  }

  /** The entries with two of them moved to the end, in a chosen order. */
  lemma TwoLast(entries: seq<Entry>, i: nat, j: nat) returns (rest: seq<Entry>)
    requires i < j < |entries|
    ensures multiset(rest + [entries[i]] + [entries[j]]) == multiset(entries)
    ensures multiset(rest + [entries[j]] + [entries[i]]) == multiset(entries)
  {
    rest := entries[..i] + entries[i + 1..j] + entries[j + 1..];
    assert entries == entries[..i] + [entries[i]] + entries[i + 1..j] + [entries[j]] + entries[j + 1..];
  }

  lemma EndsWith(schema: seq<Field>, s: State, rest: seq<Entry>, e: Entry, f: Entry, mark: string)
    requires Accepted(schema, rest + [e] + [f])
    ensures Accepted(schema, rest) && Resolve(schema, e).Ok? && Resolve(schema, f).Ok?
    ensures DoAll(s, ResolveAll(schema, rest + [e] + [f]), mark)
            == Do(Do(DoAll(s, ResolveAll(schema, rest), mark), Resolve(schema, e).value, mark),
                  Resolve(schema, f).value, mark)
  {
    var all := rest + [e] + [f];
    assert all[|rest|] == e && all[|rest| + 1] == f;
    assert forall i :: 0 <= i < |rest| ==> all[i] == rest[i];
    var ws, a, b := ResolveAll(schema, rest), Resolve(schema, e).value, Resolve(schema, f).value;
    assert ResolveAll(schema, all) == ws + [a] + [b];
    DoLast(s, ws + [a], b, mark);
    DoLast(s, ws, a, mark);
  }

  lemma ClashIsOrdered(
    schema: seq<Field>, s: State, entries: seq<Entry>, kind: SourceKind, sourcePath: string, i: nat, j: nat)
    requires i < j < |entries| && Accepted(schema, entries) && EntriesClash(schema, entries[i], entries[j])
    ensures !OrderFree(schema, s, entries, kind, sourcePath)
  {
    hide ApplyToml, Resolve, Do, DoAll, Clash;
    var rest := TwoLast(entries, i, j);
    var e, f, mark := entries[i], entries[j], Label(kind, sourcePath);
    var one, two := rest + [e] + [f], rest + [f] + [e];
    AcceptedPermutation(schema, entries, one);
    AcceptedPermutation(schema, entries, two);
    EndsWith(schema, s, rest, e, f, mark);
    EndsWith(schema, s, rest, f, e, mark);
    SourceIsRun(schema, s, one, kind, sourcePath);
    SourceIsRun(schema, s, two, kind, sourcePath);
    ClashShows(DoAll(s, ResolveAll(schema, rest), mark), Resolve(schema, e).value, Resolve(schema, f).value, mark);
    var a := ApplyToml(schema, s, entries, kind, sourcePath);
    assert SameOutcome(a, ApplyToml(schema, s, one, kind, sourcePath))
           ==> !SameOutcome(a, ApplyToml(schema, s, two, kind, sourcePath));
  }

  /** Applying a source has the same outcome in every order of its entries exactly when some entry is
      refused, or no two entries store different texts at one path or different values in one slot
      of one server. In particular the place of the global flag among server entries is immaterial. */
  lemma OrderMatters(schema: seq<Field>, s: State, entries: seq<Entry>, kind: SourceKind, sourcePath: string)
    ensures OrderFree(schema, s, entries, kind, sourcePath)
            <==> (!Accepted(schema, entries)
                  || forall e, f :: e in entries && f in entries ==> !EntriesClash(schema, e, f))
  {
    hide *;
    if !Accepted(schema, entries) {
      RefusalIsOrderFree(schema, s, entries, kind, sourcePath);
    } else if e, f :| e in entries && f in entries && EntriesClash(schema, e, f) {
      var i :| 0 <= i < |entries| && entries[i] == e;
      var j :| 0 <= j < |entries| && entries[j] == f;
      ClashIsSymmetric(schema, e, f);
      if i < j {
        ClashIsOrdered(schema, s, entries, kind, sourcePath, i, j);
      } else {
        ClashIsOrdered(schema, s, entries, kind, sourcePath, j, i);
      }
    } else {
      NoClashIsOrderFree(schema, s, entries, kind, sourcePath);
    }
  }

  lemma ServerWriteKey(schema: seq<Field>, e: Entry)
    requires Resolve(schema, e).Ok? && Resolve(schema, e).value.effect.SetServer?
    ensures var w := Resolve(schema, e).value.effect;
            && McpPath(e.key).Some? && McpPath(e.key).value.index == w.index
            && SlotOf(McpPath(e.key).value.field) == w.slot
  {
    hide Lookup, TomlText, SlotValueOf, SlotOf, TypeAccepts, TomlFits, Assigned;
  }

  lemma SlotNames(f: string, g: string)
    requires SlotOf(f) == SlotOf(g) && !SlotOf(f).OtherSlot?
    ensures f == g
  {
  }

  /** Clashing entries have one key, up to the two spellings of the schema version, or name the same
      field of the same server: keys that do neither are free of order. */
  lemma ClashingKeys(schema: seq<Field>, e: Entry, f: Entry)
    requires EntriesClash(schema, e, f)
    ensures Normalize(e.key) == Normalize(f.key)
            || (McpPath(e.key).Some? && McpPath(f.key) == McpPath(e.key))
  {
    var a, b := Resolve(schema, e).value, Resolve(schema, f).value;
    assert a.path == Normalize(e.key) && b.path == Normalize(f.key);
    if a.path != b.path {
      ServerWriteKey(schema, e);
      ServerWriteKey(schema, f);
      SlotNames(McpPath(e.key).value.field, McpPath(f.key).value.field);
    }
  }

  /** Two spellings of one index, such as `1` and `01`, that name the same server differently: the
      outcome depends on the order. */
  lemma SpellingsClash(
    schema: seq<Field>, s: State, d: string, k: string, a: string, b: string, kind: SourceKind, sourcePath: string)
    requires d != [] && AllDigits(d) && k != [] && AllDigits(k) && DigitsValue(d) == DigitsValue(k) <= SIZE_MAX
    requires Lookup(schema, ServerKey(d, "name")).None? && Lookup(schema, ServerKey(k, "name")).None?
    requires a != b
    ensures var e, f := Entry(ServerKey(d, "name"), TomlString(a)), Entry(ServerKey(k, "name"), TomlString(b));
            EntriesClash(schema, e, f) && !OrderFree(schema, s, [e, f], kind, sourcePath)
  {
    hide *;
    var e, f := Entry(ServerKey(d, "name"), TomlString(a)), Entry(ServerKey(k, "name"), TomlString(b));
    NameEntry(schema, d, a);
    NameEntry(schema, k, b);
    NamesClash(schema, e, f);
    assert [e, f] == ([] + [e]) + [f];
    EmptySource(schema);
    AcceptedLast(schema, [], e);
    AcceptedLast(schema, [] + [e], f);
    ClashIsOrdered(schema, s, [e, f], kind, sourcePath, 0, 1);
  }

  lemma NamesClash(schema: seq<Field>, e: Entry, f: Entry)
    requires Resolve(schema, e).Ok? && Resolve(schema, f).Ok?
    requires var a, b := Resolve(schema, e).value.effect, Resolve(schema, f).value.effect;
             a.SetServer? && b.SetServer? && a.index == b.index && a.slot == b.slot && a.slotValue != b.slotValue
    ensures EntriesClash(schema, e, f)
  {
    hide Resolve;
  }

  lemma NameEntry(schema: seq<Field>, digits: string, name: string)
    requires digits != [] && AllDigits(digits) && DigitsValue(digits) <= SIZE_MAX
    requires Lookup(schema, ServerKey(digits, "name")).None?
    ensures Resolve(schema, Entry(ServerKey(digits, "name"), TomlString(name)))
         == Ok(Write(ServerKey(digits, "name"), name, SetServer(DigitsValue(digits), Name, TextSlot(name))))
  {
    hide McpPath, DigitsValue, Lookup;
    ServerKeyReads(digits, "name");
    assert ServerKey(digits, "name")[0] == 'm' && "schema_version"[0] == 's';
  }

  lemma OneAndZeroOne()
    ensures AllDigits("1") && AllDigits("01") && DigitsValue("1") == DigitsValue("01") == 1
  {
    assert "1"[..0] == [] && "01"[..1] == "0" && "0"[..0] == [];
    assert DigitsValue("0") == 0;
  }
}
