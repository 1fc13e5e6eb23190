/** A refused source keeps what it has written so far. Exactly when are that record and the error
    key the same for every order of the entries? */
module ConfigRefusal {
  import opened Text
  import opened ConfigState
  import opened ConfigLayers
  import opened ConfigOrder

  /** Every order of the entries leaves the same record and reports the same error, if any. */
  ghost predicate ExactlyOrderFree(
    schema: seq<Field>, s: State, entries: seq<Entry>, kind: SourceKind, sourcePath: string)
  {
    forall other: seq<Entry> :: multiset(other) == multiset(entries) ==>
      ApplyToml(schema, s, other, kind, sourcePath) == ApplyToml(schema, s, entries, kind, sourcePath)
  }

  /** The outcome of `e` and then, if it is accepted, `r`. */
  function Pair(schema: seq<Field>, s: State, e: Entry, r: Entry, kind: SourceKind, sourcePath: string): Outcome {
    var first := ApplyEntry(schema, s, e, kind, sourcePath);
    if first.error.Some? then first else ApplyEntry(schema, first.state, r, kind, sourcePath)
  }

  /** Putting another entry of the source in front of a refused one does not show. */
  predicate FrontIsFree(schema: seq<Field>, s: State, entries: seq<Entry>, kind: SourceKind, sourcePath: string) {
    forall e, r :: e in entries && r in entries && Resolve(schema, r).Err? ==>
      Pair(schema, s, e, r, kind, sourcePath) == ApplyEntry(schema, s, r, kind, sourcePath)
  }

  // ---- What a refused entry leaves -------------------------------------------------------------

  lemma RefusedEntry(schema: seq<Field>, s: State, r: Entry, kind: SourceKind, sourcePath: string)
    requires Resolve(schema, r).Err?
    ensures var p, text := Normalize(r.key), TomlText(r.value);
            ApplyEntry(schema, s, r, kind, sourcePath)
            == Outcome(if RefusedFlag(schema, p, text) then AfterRefusal(schema, s, p, text) else s,
                       Some(Resolve(schema, r).code))
  {
    hide Lookup, McpPath, SlotOf, SlotValueOf, TomlText, TypeAccepts, MirrorAt, KnownPath, Assigned, Grow;
    assert Normalize(Normalize(r.key)) == Normalize(r.key);
  }

  lemma GrowRedefer(servers: seq<Server>, was: bool, deferred: bool, n: nat)
    ensures Grow(Redefer(servers, deferred), deferred, n) == Redefer(Grow(servers, was, n), deferred)
  {
  }

  lemma GrowTwice(servers: seq<Server>, deferred: bool, m: nat, n: nat)
    ensures Grow(Grow(servers, deferred, m), deferred, n) == Grow(Grow(servers, deferred, n), deferred, m)
  {
  }

  lemma GrowSet(servers: seq<Server>, deferred: bool, n: nat, j: nat, server: Server)
    requires j < |servers|
    ensures Grow(servers[j := server], deferred, n) == Grow(servers, deferred, n)[j := server]
    ensures Grow(servers, deferred, n)[j] == servers[j]
  {
  }

  /** What an effect does to a table that grows to `n` servers, told by the grown table alone. */
  lemma EffectOnGrown(s: State, e: Effect, n: nat)
    requires e.SetServer? ==> Fits(e.slot, e.slotValue)
    ensures var t := ApplyEffect(s, e);
            var grown := Grow(s.servers, DeferredFlag(s), n);
            Grow(t.servers, DeferredFlag(t), n) ==
            match e
            case NoEffect => grown
            case SetMirror(m, v) => if m.McpDeferred? then Redefer(grown, v == BoolValue(true)) else grown
            case SetServer(j, slot, v) =>
              Grow(grown, DeferredFlag(s), j + 1)[j := SetSlot(Grow(grown, DeferredFlag(s), j + 1)[j], slot, v)]
  {
    hide Grow, Redefer, SetSlot, FreshServer;
    match e
    case NoEffect =>
    case SetMirror(m, v) => GrowRedefer(s.servers, DeferredFlag(s), v == BoolValue(true), n);
    case SetServer(j, slot, v) =>
      var wide := Grow(s.servers, DeferredFlag(s), j + 1);
      GrowSet(wide, DeferredFlag(s), n, j, SetSlot(wide[j], slot, v));
      GrowTwice(s.servers, DeferredFlag(s), j + 1, n);
  }

  /** Two states that differ only in what a refused flag overwrites. */
  predicate AlikeFor(s: State, t: State, path: string, n: nat) {
    && s.values - {path} == t.values - {path}
    && s.sources == t.sources && s.mirrors == t.mirrors
    && Grow(s.servers, DeferredFlag(s), n) == Grow(t.servers, DeferredFlag(t), n)
  }

  lemma AlikeIff(schema: seq<Field>, s: State, t: State, path: string, text: string)
    requires RefusedFlag(schema, path, text)
    ensures AfterRefusal(schema, s, path, text) == AfterRefusal(schema, t, path, text)
            <==> AlikeFor(s, t, path, McpPath(path).value.index + 1)
  {
    hide Grow, Lookup, McpPath, DeferredFlag, SlotOf, SlotValueOf;
    var a, b := s.values[path := text], t.values[path := text];
    assert s.values - {path} == a - {path} && t.values - {path} == b - {path};
    if s.values - {path} == t.values - {path} {
      forall k | k in a || k in b
        ensures k in a && k in b && a[k] == b[k]
      {
        assert k != path ==> (k in s.values - {path} <==> k in s.values) && (k in t.values - {path} <==> k in t.values);
      }
      assert a == b;
    }
  }

  lemma WriteKeepsAlike(s: State, t: State, w: Write, mark: string, path: string, n: nat)
    requires Sound(w) && AlikeFor(s, t, path, n)
    ensures AlikeFor(Do(s, w, mark), Do(t, w, mark), path, n)
  {
    hide Grow, Redefer, SetSlot;
    EffectOnGrown(s, w.effect, n);
    EffectOnGrown(t, w.effect, n);
    EffectsKeepMaps(s, w.effect);
    EffectsKeepMaps(t, w.effect);
    SetBeside(s.values, t.values, w.path, w.text, path);
  }

  lemma EffectsKeepMaps(s: State, e: Effect)
    requires e.SetServer? ==> Fits(e.slot, e.slotValue)
    ensures ApplyEffect(s, e).values == s.values && ApplyEffect(s, e).sources == s.sources
  {
  }

  lemma SetBeside(a: map<string, string>, b: map<string, string>, k: string, v: string, path: string)
    requires a - {path} == b - {path}
    ensures a[k := v] - {path} == b[k := v] - {path}
  {
    if k == path {
      assert a[k := v] - {path} == a - {path} && b[k := v] - {path} == b - {path};
    } else {
      assert a[k := v] - {path} == (a - {path})[k := v] && b[k := v] - {path} == (b - {path})[k := v];
    }
  }

  /** States from which an entry is refused alike stay so under any accepted write. */
  lemma StaysAlike(schema: seq<Field>, s: State, t: State, a: Entry, r: Entry, kind: SourceKind, sourcePath: string)
    requires Resolve(schema, r).Err? && Resolve(schema, a).Ok?
    requires ApplyEntry(schema, s, r, kind, sourcePath) == ApplyEntry(schema, t, r, kind, sourcePath)
    ensures ApplyEntry(schema, ApplyEntry(schema, s, a, kind, sourcePath).state, r, kind, sourcePath)
         == ApplyEntry(schema, ApplyEntry(schema, t, a, kind, sourcePath).state, r, kind, sourcePath)
  {
    hide ApplyEntry, Resolve, AfterRefusal, RefusedFlag, Do, AlikeFor, McpPath, Sound, TomlText, Label;
    var p, text := Normalize(r.key), TomlText(r.value);
    var w, mark := Resolve(schema, a).value, Label(kind, sourcePath);
    RefusedEntry(schema, s, r, kind, sourcePath);
    RefusedEntry(schema, t, r, kind, sourcePath);
    EntryIsWrite(schema, s, a, kind, sourcePath);
    EntryIsWrite(schema, t, a, kind, sourcePath);
    RefusedEntry(schema, Do(s, w, mark), r, kind, sourcePath);
    RefusedEntry(schema, Do(t, w, mark), r, kind, sourcePath);
    if RefusedFlag(schema, p, text) {
      FlagHasIndex(schema, p, text);
      AlikeIff(schema, s, t, p, text);
      WriteKeepsAlike(s, t, w, mark, p, McpPath(p).value.index + 1);
      AlikeIff(schema, Do(s, w, mark), Do(t, w, mark), p, text);
    }
  }

  lemma FlagHasIndex(schema: seq<Field>, p: string, text: string)
    requires RefusedFlag(schema, p, text)
    ensures McpPath(p).Some?
  {
  }

  // ---- Runs up to the first refusal ------------------------------------------------------------

  /** Accepted entries that do not show in front of `r` one by one do not show together. */
  lemma {:induction false} FrontDoesNotShow(
    schema: seq<Field>, s: State, front: seq<Entry>, r: Entry, kind: SourceKind, sourcePath: string)
    requires Accepted(schema, front) && Resolve(schema, r).Err?
    requires forall e :: e in front ==>
               Pair(schema, s, e, r, kind, sourcePath) == ApplyEntry(schema, s, r, kind, sourcePath)
    ensures ApplyToml(schema, s, front, kind, sourcePath).error.None?
    ensures ApplyEntry(schema, ApplyToml(schema, s, front, kind, sourcePath).state, r, kind, sourcePath)
         == ApplyEntry(schema, s, r, kind, sourcePath)
    decreases |front|
  {
    hide Resolve, ApplyEntry;
    SourceIsRun(schema, s, front, kind, sourcePath);
    if front != [] {
      var n := |front| - 1;
      var t := ApplyToml(schema, s, front[..n], kind, sourcePath).state;
      FrontDoesNotShow(schema, s, front[..n], r, kind, sourcePath);
      EntryIsWrite(schema, s, front[n], kind, sourcePath);
      StaysAlike(schema, t, s, front[n], r, kind, sourcePath);
      assert front[n] in front;
    }
  }

  lemma NothingRefused(schema: seq<Field>)
    ensures Accepted(schema, [])
  {
  }

  lemma {:induction false} FirstRefused(schema: seq<Field>, entries: seq<Entry>) returns (n: nat)
    requires !Accepted(schema, entries)
    ensures n < |entries| && Resolve(schema, entries[n]).Err? && Accepted(schema, entries[..n])
    decreases |entries|
  {
    hide Resolve, Accepted;
    NothingRefused(schema);
    var last := |entries| - 1;
    var init := entries[..last];
    assert entries == init + [entries[last]];
    AcceptedLast(schema, init, entries[last]);
    if Accepted(schema, init) {
      n := last;
    } else {
      n := FirstRefused(schema, init);
      assert init[..n] == entries[..n] && init[n] == entries[n];
    }
  }

  /** In any order, the outcome is that of the refused entry met first, alone. */
  lemma OutcomeOfOrder(schema: seq<Field>, s: State, entries: seq<Entry>, kind: SourceKind, sourcePath: string)
    returns (n: nat)
    requires !Accepted(schema, entries) && FrontIsFree(schema, s, entries, kind, sourcePath)
    ensures n < |entries| && Resolve(schema, entries[n]).Err?
    ensures ApplyToml(schema, s, entries, kind, sourcePath) == ApplyEntry(schema, s, entries[n], kind, sourcePath)
  {
    n := FirstRefused(schema, entries);
    var r := entries[n];
    assert r in entries && forall e :: e in entries[..n] ==> e in entries;
    hide Resolve, ApplyEntry, Accepted, AfterRefusal, RefusedFlag;
    FrontDoesNotShow(schema, s, entries[..n], r, kind, sourcePath);
    ApplyNext(schema, s, entries, n, kind, sourcePath);
    RefusedEntry(schema, s, r, kind, sourcePath);
    ApplyStops(schema, s, entries, n + 1, kind, sourcePath);
  }

  lemma FreeInAnyOrder(
    schema: seq<Field>, s: State, entries: seq<Entry>, other: seq<Entry>, kind: SourceKind, sourcePath: string)
    requires !Accepted(schema, entries) && FrontIsFree(schema, s, entries, kind, sourcePath)
    requires multiset(other) == multiset(entries)
    ensures ApplyToml(schema, s, other, kind, sourcePath) == ApplyToml(schema, s, entries, kind, sourcePath)
  {
    assert forall e :: e in other <==> e in multiset(other);
    assert forall e :: e in entries <==> e in multiset(entries);
    if Accepted(schema, other) {
      AcceptedPermutation(schema, other, entries);
    }
    var n := OutcomeOfOrder(schema, s, entries, kind, sourcePath);
    var m := OutcomeOfOrder(schema, s, other, kind, sourcePath);
    hide Resolve, ApplyEntry, AfterRefusal, RefusedFlag;
    RefusedEntry(schema, s, other[m], kind, sourcePath);
    assert other[m] in entries;
    assert Pair(schema, s, other[m], entries[n], kind, sourcePath) == ApplyEntry(schema, s, other[m], kind, sourcePath);
  }

  // ---- Orders that show ------------------------------------------------------------------------

  lemma StartsWith(
    schema: seq<Field>, s: State, e: Entry, r: Entry, rest: seq<Entry>, kind: SourceKind, sourcePath: string)
    requires Resolve(schema, r).Err?
    ensures ApplyToml(schema, s, [e, r] + rest, kind, sourcePath) == Pair(schema, s, e, r, kind, sourcePath)
    ensures ApplyToml(schema, s, [r, e] + rest, kind, sourcePath) == ApplyEntry(schema, s, r, kind, sourcePath)
  {
    hide Resolve, ApplyEntry, AfterRefusal, RefusedFlag;
    var one, two := [e, r] + rest, [r, e] + rest;
    RefusedEntry(schema, s, r, kind, sourcePath);
    RefusedEntry(schema, ApplyEntry(schema, s, e, kind, sourcePath).state, r, kind, sourcePath);
    assert one[..0] == [] && two[..0] == [];
    ApplyNext(schema, s, one, 0, kind, sourcePath);
    ApplyNext(schema, s, one, 1, kind, sourcePath);
    ApplyNext(schema, s, two, 0, kind, sourcePath);
    ApplyStops(schema, s, one, 2, kind, sourcePath);
    ApplyStops(schema, s, two, 1, kind, sourcePath);
  }

  lemma FrontShows(
    schema: seq<Field>, s: State, entries: seq<Entry>, i: nat, j: nat, kind: SourceKind, sourcePath: string)
    requires i < |entries| && j < |entries| && Resolve(schema, entries[j]).Err?
    requires Pair(schema, s, entries[i], entries[j], kind, sourcePath)
          != ApplyEntry(schema, s, entries[j], kind, sourcePath)
    ensures !ExactlyOrderFree(schema, s, entries, kind, sourcePath)
  {
    hide Resolve, ApplyEntry, ApplyToml, AfterRefusal, RefusedFlag;
    RefusedEntry(schema, s, entries[j], kind, sourcePath);
    assert i != j;
    var rest := PutInFront(entries, i, j);
    StartsWith(schema, s, entries[i], entries[j], rest, kind, sourcePath);
  }

  lemma FrontToBack<T>(a: T, b: T, rest: seq<T>)
    ensures multiset([a, b] + rest) == multiset(rest + [a] + [b])
  {
    assert [a, b] == [a] + [b];
  }

  /** Two entries in front of the others, in either order. */
  lemma PutInFront(entries: seq<Entry>, i: nat, j: nat) returns (rest: seq<Entry>)
    requires i < |entries| && j < |entries| && i != j
    ensures multiset([entries[i], entries[j]] + rest) == multiset(entries)
    ensures multiset([entries[j], entries[i]] + rest) == multiset(entries)
  {
    if i < j {
      rest := TwoLast(entries, i, j);
    } else {
      rest := TwoLast(entries, j, i);
    }
    FrontToBack(entries[i], entries[j], rest);
    FrontToBack(entries[j], entries[i], rest);
  }

  /** A source with a refused entry has the same record and error key in every order exactly when no
      entry of it, put in front of a refused one, changes what that one leaves and reports. */
  lemma RefusedOrder(schema: seq<Field>, s: State, entries: seq<Entry>, kind: SourceKind, sourcePath: string)
    requires !Accepted(schema, entries)
    ensures ExactlyOrderFree(schema, s, entries, kind, sourcePath)
            <==> FrontIsFree(schema, s, entries, kind, sourcePath)
  {
    hide Resolve, ApplyEntry, ApplyToml, Accepted, Pair;
    if FrontIsFree(schema, s, entries, kind, sourcePath) {
      forall other: seq<Entry> | multiset(other) == multiset(entries)
        ensures ApplyToml(schema, s, other, kind, sourcePath) == ApplyToml(schema, s, entries, kind, sourcePath)
      {
        FreeInAnyOrder(schema, s, entries, other, kind, sourcePath);
      }
    } else {
      var e, r :| e in entries && r in entries && Resolve(schema, r).Err?
                  && Pair(schema, s, e, r, kind, sourcePath) != ApplyEntry(schema, s, r, kind, sourcePath);
      var i :| 0 <= i < |entries| && entries[i] == e;
      var j :| 0 <= j < |entries| && entries[j] == r;
      FrontShows(schema, s, entries, i, j, kind, sourcePath);
    }
  }

  /** A source without a refused entry has the same record in every order exactly when no two of its
      entries clash. */
  lemma AcceptedOrder(schema: seq<Field>, s: State, entries: seq<Entry>, kind: SourceKind, sourcePath: string)
    requires Accepted(schema, entries)
    ensures ExactlyOrderFree(schema, s, entries, kind, sourcePath)
            <==> forall e, f :: e in entries && f in entries ==> !EntriesClash(schema, e, f)
  {
    hide Accepted, ApplyToml, EntriesClash;
    OrderMatters(schema, s, entries, kind, sourcePath);
    SourceIsRun(schema, s, entries, kind, sourcePath);
    forall other: seq<Entry> | multiset(other) == multiset(entries)
      ensures ApplyToml(schema, s, other, kind, sourcePath).error.None?
    {
      AcceptedPermutation(schema, entries, other);
      SourceIsRun(schema, s, other, kind, sourcePath);
    }
  }

  /** An accepted entry that changes the record shows in front of a refused one that is no server flag. */
  lemma ChangeShows(schema: seq<Field>, s: State, e: Entry, r: Entry, kind: SourceKind, sourcePath: string)
    requires Resolve(schema, e).Ok? && Resolve(schema, r).Err?
    requires !RefusedFlag(schema, Normalize(r.key), TomlText(r.value))
    ensures Pair(schema, s, e, r, kind, sourcePath) == ApplyEntry(schema, s, r, kind, sourcePath)
            <==> ApplyEntry(schema, s, e, kind, sourcePath).state == s
  {
    hide Resolve, ApplyEntry, AfterRefusal, RefusedFlag;
    EntryIsWrite(schema, s, e, kind, sourcePath);
    RefusedEntry(schema, s, r, kind, sourcePath);
    RefusedEntry(schema, ApplyEntry(schema, s, e, kind, sourcePath).state, r, kind, sourcePath);
  }
}
