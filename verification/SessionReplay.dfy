/** Conversation histories, one per scope, and their replay from the session table. The history type
    and its append are parameters; reads and writes of the table succeed. */
module SessionReplay {
  import opened Sequences
  import opened Text

  datatype Turn = Turn(
    channelName: string, conversationId: string, threadId: string, senderId: string,
    input: string, output: string)

  datatype Scope = Scope(channel: string, sender: string, thread: string)

  /** A row of the session table; `id` is its auto-incremented key. */
  datatype Row = Row(id: nat, key: string, role: string, content: string)

  datatype Policy<!H(!new)> = Policy(empty: H, append: (H, string, string) -> H)

  datatype Entry<H> = Entry(scope: Scope, history: H)

  // ---- Session keys ----------------------------------------------------------------------------

  function ScopeOf(t: Turn): Scope {
    Scope(if t.channelName == [] then "unknown" else t.channelName, t.senderId,
          if t.threadId == [] then t.conversationId else t.threadId)
  }

  function KeyOf(t: Turn): string {
    t.channelName + ['_'] + (t.conversationId + ['_'] + t.senderId)
  }

  /** Position of the last `c`, or `|s|` when there is none. */
  function LastIndexOf(s: string, c: char): (k: nat)
    ensures k <= |s| && (k < |s| ==> s[k] == c)
    ensures forall i :: (if k < |s| then k < i else 0 <= i) && i < |s| ==> s[i] != c
    decreases |s|
  {
    if s == [] then 0
    else if s[|s| - 1] == c then |s| - 1
    else
      var k := LastIndexOf(s[..|s| - 1], c);
      if k == |s| - 1 then |s| else k
  }

  /** Channel before the first underscore, sender after the last, thread between them. */
  function SplitKey(key: string): Option<Scope> {
    var k := CStr(key);
    var first, last := IndexOf(k, '_'), LastIndexOf(k, '_');
    if first == |k| || last == first || first == 0 || last + 1 >= |k| then None
    else Some(Scope(k[..first], k[last + 1..], k[first + 1..last]))
  }

  /** The caller's test for a turn whose key says where it belongs. */
  predicate KeyFaithful(t: Turn) {
    && t.channelName != [] && '_' !in t.channelName
    && t.senderId != [] && '_' !in t.senderId
    && (t.threadId == [] || t.threadId == t.conversationId)
  }

  lemma LastIndexOfConcat(a: string, c: char, b: string)
    requires c !in b
    ensures LastIndexOf(a + [c] + b, c) == |a|
  {
    var s := a + [c] + b;
    hide LastIndexOf;
    assert s[|a|] == c && s[|a| + 1..] == b;
    assert forall i :: |a| < i < |s| ==> s[i] in b;
  }

  lemma SplitConcat(channel: string, thread: string, sender: string)
    requires channel != [] && '_' !in channel && sender != [] && '_' !in sender
    requires '\0' !in channel + ['_'] + (thread + ['_'] + sender)
    ensures SplitKey(channel + ['_'] + (thread + ['_'] + sender)) == Some(Scope(channel, sender, thread))
  {
    var key := channel + ['_'] + (thread + ['_'] + sender);
    hide CStr, IndexOf, LastIndexOf;
    CStrWithoutNul(key);
    IndexOfConcat(channel, '_', thread + ['_'] + sender);
    assert key == (channel + ['_'] + thread) + ['_'] + sender;
    LastIndexOfConcat(channel + ['_'] + thread, '_', sender);
    assert key[|channel| + 1..|channel| + 1 + |thread|] == thread;
    assert key[|channel| + 1 + |thread| + 1..] == sender;
  }

  /** A key splits into its scope again exactly for the turns that pass the test. */
  lemma KeyRoundTrip(t: Turn)
    requires '\0' !in KeyOf(t)
    ensures SplitKey(KeyOf(t)) == Some(ScopeOf(t)) <==> KeyFaithful(t)
  {
    var key := KeyOf(t);
    CStrWithoutNul(key);
    if t.channelName != [] && '_' !in t.channelName && t.senderId != [] && '_' !in t.senderId {
      SplitConcat(t.channelName, t.conversationId, t.senderId);
    } else {
      SplitBoundaries(t);
    }
  }

  lemma SplitBoundaries(t: Turn)
    requires '\0' !in KeyOf(t)
    requires t.channelName == [] || '_' in t.channelName || t.senderId == [] || '_' in t.senderId
    ensures SplitKey(KeyOf(t)) != Some(ScopeOf(t))
  {
    var key := KeyOf(t);
    CStrWithoutNul(key);
    var first, last := IndexOf(key, '_'), LastIndexOf(key, '_');
    var n := |key| - |t.senderId|;
    assert key[n..] == t.senderId && key[n - 1] == '_' && key[|t.channelName|] == '_';
    assert key[..|t.channelName|] == t.channelName;
    if '_' in t.channelName {
      var i :| 0 <= i < |t.channelName| && t.channelName[i] == '_';
      assert key[i] == '_' && first <= i;
    } else if '_' in t.senderId {
      var i :| 0 <= i < |t.senderId| && t.senderId[i] == '_';
      assert key[n + i] == '_' && last >= n + i;
    } else if t.senderId == [] {
      assert key[|key| - 1] == '_' && last == |key| - 1;
    }
  }

  /** Two turns share a history exactly when they are of one channel (the unnamed one is `unknown`), one
      sender and one thread, a turn without a thread being in that of its conversation. */
  lemma SharedScope(t: Turn, u: Turn)
    ensures ScopeOf(t) == ScopeOf(u)
            <==> (&& (t.channelName == u.channelName
                      || (t.channelName == [] && u.channelName == "unknown")
                      || (t.channelName == "unknown" && u.channelName == []))
                  && t.senderId == u.senderId
                  && (t.threadId != [] && u.threadId != [] ==> t.threadId == u.threadId)
                  && (t.threadId != [] && u.threadId == [] ==> t.threadId == u.conversationId)
                  && (t.threadId == [] && u.threadId != [] ==> t.conversationId == u.threadId)
                  && (t.threadId == [] && u.threadId == [] ==> t.conversationId == u.conversationId))
  {
  }

  /** The key of a turn, spelled out. */
  lemma KeySpelled(channel: string, conversation: string, thread: string, sender: string, input: string, output: string)
    ensures KeyOf(Turn(channel, conversation, thread, sender, input, output))
         == channel + "_" + conversation + "_" + sender
  {
    assert channel + ['_'] + (conversation + ['_'] + sender) == channel + "_" + conversation + "_" + sender;
  }

  // ---- The vector of histories -----------------------------------------------------------------

  function FindScope<H>(hs: seq<Entry<H>>, scope: Scope): (k: nat)
    ensures k <= |hs|
    ensures k < |hs| ==> hs[k].scope == scope
    ensures forall i :: 0 <= i < k ==> hs[i].scope != scope
  {
    FirstWhere(hs, (e: Entry<H>) => e.scope == scope)
  }

  /** The history of a scope; a scope not met yet has the empty one. */
  function HistoryOf<H(!new)>(p: Policy<H>, hs: seq<Entry<H>>, scope: Scope): H {
    var k := FindScope(hs, scope);
    if k < |hs| then hs[k].history else p.empty
  }

  /** One more line in the history of a scope, which is created when it is new. */
  function Append<H(!new)>(p: Policy<H>, hs: seq<Entry<H>>, scope: Scope, role: string, content: string): seq<Entry<H>>
  {
    var k := FindScope(hs, scope);
    if k < |hs| then hs[k := Entry(scope, p.append(hs[k].history, role, content))]
    else hs + [Entry(scope, p.append(p.empty, role, content))]
  }

  lemma FindScopeUnique<H>(hs: seq<Entry<H>>, scope: Scope, k: nat)
    requires k <= |hs| && (k < |hs| ==> hs[k].scope == scope)
    requires forall i :: 0 <= i < k ==> hs[i].scope != scope
    ensures FindScope(hs, scope) == k
  {
  }

  lemma AppendReads<H(!new)>(p: Policy<H>, hs: seq<Entry<H>>, scope: Scope, role: string, content: string, other: Scope)
    ensures HistoryOf(p, Append(p, hs, scope, role, content), other)
            == if other == scope then p.append(HistoryOf(p, hs, scope), role, content) else HistoryOf(p, hs, other)
  {
    var k := FindScope(hs, scope);
    var after := Append(p, hs, scope, role, content);
    assert forall i :: 0 <= i < |hs| ==> after[i].scope == hs[i].scope;
    if other == scope {
      FindScopeUnique(after, scope, k);
    } else {
      var j := FindScope(hs, other);
      FindScopeUnique(after, other, if j < |hs| then j else |after|);
    }
  }

  // ---- Live turns and replay -------------------------------------------------------------------

  datatype World<H> = World(histories: seq<Entry<H>>, rows: seq<Row>)

  function Insert(rows: seq<Row>, key: string, role: string, content: string): seq<Row> {
    rows + [Row(|rows| + 1, key, role, content)]
  }

  /** A processed turn: the input and then the reply, each appended and then persisted. */
  function Process<H(!new)>(p: Policy<H>, w: World<H>, t: Turn): World<H> {
    var heard := Append(p, w.histories, ScopeOf(t), "user", t.input);
    var rows := Insert(w.rows, KeyOf(t), "user", t.input);
    World(Append(p, heard, ScopeOf(t), "assistant", t.output), Insert(rows, KeyOf(t), "assistant", t.output))
  }

  /** A turn adds the input and then the reply to its own history and to the end of the table, and
      changes no other history. */
  lemma TurnAppends<H(!new)>(p: Policy<H>, w: World<H>, t: Turn, other: Scope)
    ensures var v := Process(p, w, t);
            var n := |w.rows|;
            && HistoryOf(p, v.histories, ScopeOf(t))
               == p.append(p.append(HistoryOf(p, w.histories, ScopeOf(t)), "user", t.input), "assistant", t.output)
            && (other != ScopeOf(t) ==> HistoryOf(p, v.histories, other) == HistoryOf(p, w.histories, other))
            && v.rows == w.rows + [Row(n + 1, KeyOf(t), "user", t.input), Row(n + 2, KeyOf(t), "assistant", t.output)]
  {
    hide HistoryOf, Append, KeyOf, ScopeOf;
    var heard := Append(p, w.histories, ScopeOf(t), "user", t.input);
    AppendReads(p, w.histories, ScopeOf(t), "user", t.input, ScopeOf(t));
    AppendReads(p, heard, ScopeOf(t), "assistant", t.output, ScopeOf(t));
    AppendReads(p, w.histories, ScopeOf(t), "user", t.input, other);
    AppendReads(p, heard, ScopeOf(t), "assistant", t.output, other);
  }

  /** One row of a replay; a key that does not split is skipped. */
  function ReplayRow<H(!new)>(p: Policy<H>, hs: seq<Entry<H>>, r: Row): seq<Entry<H>> {
    match SplitKey(r.key)
    case None => hs
    case Some(scope) => Append(p, hs, scope, CStr(r.role), CStr(r.content))
  }

  function Replay<H(!new)>(p: Policy<H>, rows: seq<Row>): seq<Entry<H>>
    decreases |rows|
  {
    if rows == [] then [] else ReplayRow(p, Replay(p, rows[..|rows| - 1]), rows[|rows| - 1])
  }

  /** The fold of the appends that the rows of a scope stand for. */
  function Fold<H(!new)>(p: Policy<H>, rows: seq<Row>, scope: Scope): H
    decreases |rows|
  {
    if rows == [] then p.empty
    else
      var r := rows[|rows| - 1];
      var h := Fold(p, rows[..|rows| - 1], scope);
      if SplitKey(r.key) == Some(scope) then p.append(h, CStr(r.role), CStr(r.content)) else h
  }

  lemma {:induction false} ReplayIsFold<H(!new)>(p: Policy<H>, rows: seq<Row>, scope: Scope)
    ensures HistoryOf(p, Replay(p, rows), scope) == Fold(p, rows, scope)
    decreases |rows|
  {
    hide SplitKey;
    if rows != [] {
      var r := rows[|rows| - 1];
      var init := rows[..|rows| - 1];
      ReplayIsFold(p, init, scope);
      if SplitKey(r.key).Some? {
        AppendReads(p, Replay(p, init), SplitKey(r.key).value, CStr(r.role), CStr(r.content), scope);
      }
    }
  }

  /** The rows of one key, in the order given. */
  function OfKey(rows: seq<Row>, key: string): seq<Row>
    decreases |rows|
  {
    if rows == [] then []
    else OfKey(rows[..|rows| - 1], key) + (if rows[|rows| - 1].key == key then [rows[|rows| - 1]] else [])
  }

  /** `ORDER BY session_key, id`: what matters is that the rows of a key come by ascending id. */
  ghost predicate Selected(rows: seq<Row>, sorted: seq<Row>) {
    && multiset(sorted) == multiset(rows)
    && forall i, j :: 0 <= i < j < |sorted| && sorted[i].key == sorted[j].key ==> sorted[i].id < sorted[j].id
  }

  ghost predicate Ascending(rows: seq<Row>) {
    forall i, j :: 0 <= i < j < |rows| ==> rows[i].id < rows[j].id
  }

  predicate KeysWithoutNul(rows: seq<Row>) {
    forall i :: 0 <= i < |rows| ==> '\0' !in rows[i].key
  }

  function ScopeKey(scope: Scope): string {
    scope.channel + ['_'] + (scope.thread + ['_'] + scope.sender)
  }

  /** Distinct scopes have distinct keys: a key is determined by the scope it splits into. */
  lemma SplitDeterminesKey(key: string, scope: Scope)
    requires '\0' !in key && SplitKey(key) == Some(scope)
    ensures key == ScopeKey(scope)
  {
    CStrWithoutNul(key);
    var first, last := IndexOf(key, '_'), LastIndexOf(key, '_');
    assert key == key[..first] + ['_'] + (key[first + 1..last] + ['_'] + key[last + 1..]);
  }

  lemma {:induction false} FoldOfKey<H(!new)>(p: Policy<H>, rows: seq<Row>, scope: Scope)
    requires KeysWithoutNul(rows)
    ensures Fold(p, rows, scope) == Fold(p, OfKey(rows, ScopeKey(scope)), scope)
    decreases |rows|
  {
    hide SplitKey;
    if rows != [] {
      var init, r := rows[..|rows| - 1], rows[|rows| - 1];
      FoldOfKey(p, init, scope);
      var kept := OfKey(init, ScopeKey(scope));
      if r.key == ScopeKey(scope) {
        assert (kept + [r])[..|kept|] == kept;
      } else {
        assert kept + [] == kept;
        if SplitKey(r.key) == Some(scope) {
          SplitDeterminesKey(r.key, scope);
        }
      }
    }
  }

  lemma {:induction false} OfKeyCounts(rows: seq<Row>, key: string, r: Row)
    ensures multiset(OfKey(rows, key))[r] == if r.key == key then multiset(rows)[r] else 0
    decreases |rows|
  {
    if rows != [] {
      var n := |rows| - 1;
      OfKeyCounts(rows[..n], key, r);
      assert rows == rows[..n] + [rows[n]];
    }
  }

  lemma {:induction false} OfKeyAscending(rows: seq<Row>, key: string)
    requires forall i, j :: 0 <= i < j < |rows| && rows[i].key == rows[j].key ==> rows[i].id < rows[j].id
    ensures Ascending(OfKey(rows, key))
    decreases |rows|
  {
    if rows != [] {
      var n := |rows| - 1;
      var kept := OfKey(rows[..n], key);
      OfKeyAscending(rows[..n], key);
      forall i | 0 <= i < |kept| && rows[n].key == key
        ensures kept[i].id < rows[n].id
      {
        OfKeyCounts(rows[..n], key, kept[i]);
        assert kept[i] in multiset(kept);
        assert kept[i] in rows[..n];
      }
    }
  }

  lemma LastIsGreatest(a: seq<Row>, b: seq<Row>)
    requires Ascending(b) && multiset(a) == multiset(b) && a != [] && b != []
    ensures exists k :: 0 <= k < |b| && b[k] == a[|a| - 1]
    ensures a[|a| - 1].id < b[|b| - 1].id || a[|a| - 1] == b[|b| - 1]
  {
    var r := a[|a| - 1];
    assert r in multiset(b);
    assert r in b;
  }

  lemma FrontMultiset(a: seq<Row>)
    requires a != []
    ensures multiset(a[..|a| - 1]) == multiset(a) - multiset{a[|a| - 1]}
    ensures a == a[..|a| - 1] + [a[|a| - 1]]
  {
    assert a == a[..|a| - 1] + [a[|a| - 1]];
  }

  lemma AscendingFront(a: seq<Row>)
    requires Ascending(a) && a != []
    ensures Ascending(a[..|a| - 1])
  {
  }

  lemma {:induction false} AscendingIsUnique(a: seq<Row>, b: seq<Row>)
    requires Ascending(a) && Ascending(b) && multiset(a) == multiset(b)
    ensures a == b
    decreases |a|
  {
    assert |a| == |multiset(a)| == |multiset(b)| == |b|;
    if a != [] {
      var n := |a| - 1;
      LastIsGreatest(a, b);
      LastIsGreatest(b, a);
      FrontMultiset(a);
      FrontMultiset(b);
      AscendingFront(a);
      AscendingFront(b);
      hide Ascending;
      AscendingIsUnique(a[..n], b[..n]);
    }
  }

  /** Reading the table back in its SELECT order gives every scope the fold of its rows. */
  lemma SelectedFolds<H(!new)>(p: Policy<H>, rows: seq<Row>, sorted: seq<Row>, scope: Scope)
    requires Ascending(rows) && KeysWithoutNul(rows) && Selected(rows, sorted)
    ensures HistoryOf(p, Replay(p, sorted), scope) == Fold(p, rows, scope)
  {
    var key := ScopeKey(scope);
    forall r
      ensures multiset(OfKey(rows, key))[r] == multiset(OfKey(sorted, key))[r]
    {
      OfKeyCounts(rows, key, r);
      OfKeyCounts(sorted, key, r);
    }
    OfKeyAscending(rows, key);
    OfKeyAscending(sorted, key);
    AscendingIsUnique(OfKey(rows, key), OfKey(sorted, key));
    SortedKeys(rows, sorted);
    FoldOfKey(p, rows, scope);
    FoldOfKey(p, sorted, scope);
    ReplayIsFold(p, sorted, scope);
  }

  lemma SortedKeys(rows: seq<Row>, sorted: seq<Row>)
    requires KeysWithoutNul(rows) && multiset(sorted) == multiset(rows)
    ensures KeysWithoutNul(sorted)
  {
    forall i | 0 <= i < |sorted|
      ensures '\0' !in sorted[i].key
    {
      assert sorted[i] in multiset(sorted);
      assert sorted[i] in rows;
    }
  }

  // ---- Runs with restarts ----------------------------------------------------------------------

  /** Nothing of the turn is cut when it is read back. */
  predicate NulFree(t: Turn) {
    '\0' !in KeyOf(t) && '\0' !in t.input && '\0' !in t.output
  }

  /** The turn goes to the scope exactly when its key splits into it. */
  predicate Respects(t: Turn, scope: Scope) {
    ScopeOf(t) == scope <==> SplitKey(KeyOf(t)) == Some(scope)
  }

  /** A turn of the scope must have a faithful key, any other a key that leads elsewhere. */
  lemma RespectsIff(t: Turn, scope: Scope)
    requires '\0' !in KeyOf(t)
    ensures Respects(t, scope)
            <==> if ScopeOf(t) == scope then KeyFaithful(t) else SplitKey(KeyOf(t)) != Some(scope)
    ensures KeyFaithful(t) ==> Respects(t, scope)
  {
    hide SplitKey, KeyFaithful, KeyOf, ScopeOf;
    KeyRoundTrip(t);
  }

  datatype Step = Live(turn: Turn) | Restart(sorted: seq<Row>)

  ghost predicate Allowed<H>(w: World<H>, step: Step) {
    match step
    case Live(t) => NulFree(t)
    case Restart(sorted) => Selected(w.rows, sorted)
  }

  function Next<H(!new)>(p: Policy<H>, w: World<H>, step: Step): World<H> {
    match step
    case Live(t) => Process(p, w, t)
    case Restart(sorted) => World(Replay(p, sorted), w.rows)
  }

  ghost predicate IsRun<H(!new)>(p: Policy<H>, run: seq<World<H>>, steps: seq<Step>) {
    && |run| == |steps| + 1 && run[0] == World([], [])
    && forall i :: 0 <= i < |steps| ==> Allowed(run[i], steps[i]) && run[i + 1] == Next(p, run[i], steps[i])
  }

  /** The scope's history is the fold of its rows, and the rows are numbered as they were inserted. */
  ghost predicate Faithful<H(!new)>(p: Policy<H>, w: World<H>, scope: Scope) {
    && (forall i :: 0 <= i < |w.rows| ==> w.rows[i].id == i + 1)
    && KeysWithoutNul(w.rows)
    && HistoryOf(p, w.histories, scope) == Fold(p, w.rows, scope)
  }

  /** The turns among the first `n` steps respect the scope. */
  ghost predicate Respected(steps: seq<Step>, n: nat, scope: Scope)
    requires n <= |steps|
  {
    forall k :: 0 <= k < n && steps[k].Live? ==> Respects(steps[k].turn, scope)
  }

  lemma FoldInsert<H(!new)>(p: Policy<H>, rows: seq<Row>, key: string, role: string, content: string, scope: Scope)
    requires '\0' !in role && '\0' !in content
    ensures Fold(p, Insert(rows, key, role, content), scope)
            == if SplitKey(key) == Some(scope) then p.append(Fold(p, rows, scope), role, content)
               else Fold(p, rows, scope)
  {
    hide SplitKey;
    CStrWithoutNul(role);
    CStrWithoutNul(content);
    var r := Row(|rows| + 1, key, role, content);
    assert (rows + [r])[..|rows|] == rows;
  }

  lemma TurnKeepsFaithful<H(!new)>(p: Policy<H>, w: World<H>, t: Turn, scope: Scope)
    requires Faithful(p, w, scope) && NulFree(t) && Respects(t, scope)
    ensures Faithful(p, Process(p, w, t), scope)
  {
    hide SplitKey, HistoryOf, Append, Fold, KeyOf, ScopeOf;
    var heard := Append(p, w.histories, ScopeOf(t), "user", t.input);
    var rows := Insert(w.rows, KeyOf(t), "user", t.input);
    AppendReads(p, w.histories, ScopeOf(t), "user", t.input, scope);
    AppendReads(p, heard, ScopeOf(t), "assistant", t.output, scope);
    FoldInsert(p, w.rows, KeyOf(t), "user", t.input, scope);
    FoldInsert(p, rows, KeyOf(t), "assistant", t.output, scope);
  }

  /** Over any run of NUL-free turns and restarts, a scope that every turn respects has the fold of its
      stored rows for its live history, whatever keys the other turns have. */
  lemma {:induction false} RunIsFaithful<H(!new)>(
    p: Policy<H>, run: seq<World<H>>, steps: seq<Step>, i: nat, scope: Scope)
    requires IsRun(p, run, steps) && i < |run| && Respected(steps, i, scope)
    ensures Faithful(p, run[i], scope)
  {
    if i > 0 {
      RunIsFaithful(p, run, steps, i - 1, scope);
      match steps[i - 1]
      case Live(t) => TurnKeepsFaithful(p, run[i - 1], t, scope);
      case Restart(sorted) =>
        assert run[i] == World(Replay(p, sorted), run[i - 1].rows) && Selected(run[i - 1].rows, sorted);
        SelectedFolds(p, run[i - 1].rows, sorted, scope);
    }
  }

  /** At any point of such a run, replaying the table in its SELECT order rebuilds the live history of
      every scope that the turns so far respect. */
  lemma ReplayRebuilds<H(!new)>(
    p: Policy<H>, run: seq<World<H>>, steps: seq<Step>, i: nat, sorted: seq<Row>, scope: Scope)
    requires IsRun(p, run, steps) && i < |run| && Respected(steps, i, scope) && Selected(run[i].rows, sorted)
    ensures HistoryOf(p, Replay(p, sorted), scope) == HistoryOf(p, run[i].histories, scope)
  {
    RunIsFaithful(p, run, steps, i, scope);
    SelectedFolds(p, run[i].rows, sorted, scope);
  }

  /** When every turn has a faithful key, the replay rebuilds every scope. */
  lemma ReplayRebuildsAll<H(!new)>(
    p: Policy<H>, run: seq<World<H>>, steps: seq<Step>, i: nat, sorted: seq<Row>, scope: Scope)
    requires IsRun(p, run, steps) && i < |run| && Selected(run[i].rows, sorted)
    requires forall k :: 0 <= k < i && steps[k].Live? ==> KeyFaithful(steps[k].turn)
    ensures HistoryOf(p, Replay(p, sorted), scope) == HistoryOf(p, run[i].histories, scope)
  {
    hide KeyFaithful, Selected, Respects, Replay, HistoryOf;
    forall k | 0 <= k < i && steps[k].Live?
      ensures Respects(steps[k].turn, scope)
    {
      assert Allowed(run[k], steps[k]);
      RespectsIff(steps[k].turn, scope);
    }
    ReplayRebuilds(p, run, steps, i, sorted, scope);
  }

  /** For a single NUL-free turn the replay agrees with the live history exactly when the turn's key
      is faithful, provided appending never gives the empty history. */
  lemma SingleTurn<H(!new)>(p: Policy<H>, t: Turn)
    requires NulFree(t)
    requires forall h, role, content :: p.append(h, role, content) != p.empty
    ensures var w := Process(p, World([], []), t);
            (forall scope :: HistoryOf(p, Replay(p, w.rows), scope) == HistoryOf(p, w.histories, scope))
            <==> KeyFaithful(t)
  {
    hide SplitKey, HistoryOf, Append, Fold, KeyOf, ScopeOf, Replay;
    KeyRoundTrip(t);
    var w := Process(p, World([], []), t);
    forall scope
      ensures HistoryOf(p, Replay(p, w.rows), scope) == Fold(p, w.rows, scope)
    {
      ReplayIsFold(p, w.rows, scope);
    }
    forall scope
      ensures HistoryOf(p, w.histories, scope) ==
              if scope == ScopeOf(t) then p.append(p.append(p.empty, "user", t.input), "assistant", t.output)
              else p.empty
    {
      EmptyHistories(p, scope);
      AppendReads(p, [], ScopeOf(t), "user", t.input, scope);
      AppendReads(p, Append(p, [], ScopeOf(t), "user", t.input), ScopeOf(t), "assistant", t.output, scope);
    }
    forall scope
      ensures Fold(p, w.rows, scope) ==
              if SplitKey(KeyOf(t)) == Some(scope)
              then p.append(p.append(p.empty, "user", t.input), "assistant", t.output)
              else p.empty
    {
      EmptyHistories(p, scope);
      FoldInsert(p, [], KeyOf(t), "user", t.input, scope);
      FoldInsert(p, Insert([], KeyOf(t), "user", t.input), KeyOf(t), "assistant", t.output, scope);
    }
    assert HistoryOf(p, w.histories, ScopeOf(t)) != p.empty;
  }

  // ---- Which keys a replay can be trusted with -------------------------------------------------

  /** The plainest history: every line, in order. */
  const LINES: Policy<seq<(string, string)>> := Policy([], (h, role, content) => h + [(role, content)])

  /** Turns processed one after another, from an empty table. */
  function After<H(!new)>(p: Policy<H>, ts: seq<Turn>): World<H>
    decreases |ts|
  {
    if ts == [] then World([], []) else Process(p, After(p, ts[..|ts| - 1]), ts[|ts| - 1])
  }

  predicate SameKeys(ts: seq<Turn>, us: seq<Turn>) {
    && |ts| == |us|
    && forall k :: 0 <= k < |ts| ==> us[k] == ts[k].(input := us[k].input, output := us[k].output)
  }

  predicate AllNulFree(ts: seq<Turn>) {
    forall k :: 0 <= k < |ts| ==> NulFree(ts[k])
  }

  ghost predicate Rebuilt<H(!new)>(p: Policy<H>, ts: seq<Turn>) {
    forall sorted, scope | Selected(After(p, ts).rows, sorted) ::
      HistoryOf(p, Replay(p, sorted), scope) == HistoryOf(p, After(p, ts).histories, scope)
  }

  lemma {:induction false} AfterIsFaithful<H(!new)>(p: Policy<H>, ts: seq<Turn>, scope: Scope)
    requires AllNulFree(ts) && forall k :: 0 <= k < |ts| ==> KeyFaithful(ts[k])
    ensures Faithful(p, After(p, ts), scope)
    decreases |ts|
  {
    hide KeyFaithful, NulFree, Process;
    if ts == [] {
      EmptyHistories(p, scope);
    } else {
      var n := |ts| - 1;
      AfterIsFaithful(p, ts[..n], scope);
      assert NulFree(ts[n]) && KeyFaithful(ts[n]);
      FaithfulRespects(ts[n], scope);
      TurnKeepsFaithful(p, After(p, ts[..n]), ts[n], scope);
    }
  }

  lemma FaithfulRespects(t: Turn, scope: Scope)
    requires NulFree(t) && KeyFaithful(t)
    ensures Respects(t, scope)
  {
    RespectsIff(t, scope);
  }

  /** The rows of NUL-free turns are numbered in order, under keys without NUL. */
  lemma {:induction false} RowsAscend<H(!new)>(p: Policy<H>, ts: seq<Turn>)
    requires AllNulFree(ts)
    ensures var rows := After(p, ts).rows;
            KeysWithoutNul(rows) && forall i :: 0 <= i < |rows| ==> rows[i].id == i + 1
    decreases |ts|
  {
    hide KeyOf, ScopeOf, Append;
    if ts != [] {
      RowsAscend(p, ts[..|ts| - 1]);
      assert NulFree(ts[|ts| - 1]);
    }
  }

  /** `ts` with every text blank but the input of turn `k`. */
  function Marked(ts: seq<Turn>, k: nat): (us: seq<Turn>)
    ensures SameKeys(ts, us)
  {
    seq(|ts|, i requires 0 <= i < |ts| => ts[i].(input := if i == k then "x" else "", output := ""))
  }

  lemma MarkedInit(ts: seq<Turn>, k: nat)
    requires ts != []
    ensures Marked(ts, k)[..|ts| - 1] == Marked(ts[..|ts| - 1], k)
  {
  }

  /** The marked line is in the live history of its scope. */
  lemma {:induction false} MarkIsLive(ts: seq<Turn>, k: nat)
    requires k < |ts|
    ensures ("user", "x") in HistoryOf(LINES, After(LINES, Marked(ts, k)).histories, ScopeOf(ts[k]))
    decreases |ts|
  {
    hide HistoryOf, Append, ScopeOf, KeyOf;
    var n := |ts| - 1;
    var us := Marked(ts, k);
    var hs := After(LINES, us[..n]).histories;
    MarkedInit(ts, k);
    if k < n {
      MarkIsLive(ts[..n], k);
    }
    ScopeOfMarked(ts, k, k);
    var heard := Append(LINES, hs, ScopeOf(us[n]), "user", us[n].input);
    AppendReads(LINES, hs, ScopeOf(us[n]), "user", us[n].input, ScopeOf(ts[k]));
    AppendReads(LINES, heard, ScopeOf(us[n]), "assistant", us[n].output, ScopeOf(ts[k]));
  }

  lemma ScopeOfMarked(ts: seq<Turn>, k: nat, i: nat)
    requires i < |ts|
    ensures ScopeOf(Marked(ts, k)[i]) == ScopeOf(ts[i]) && KeyOf(Marked(ts, k)[i]) == KeyOf(ts[i])
  {
  }

  /** Every row with the mark has the key of turn `k`. */
  predicate MarkHasKey(rows: seq<Row>, ts: seq<Turn>, k: nat) {
    forall i :: 0 <= i < |rows| ==> rows[i].content == "" || (k < |ts| && rows[i].key == KeyOf(ts[k]))
  }

  lemma {:induction false} MarkedRows(ts: seq<Turn>, k: nat)
    ensures MarkHasKey(After(LINES, Marked(ts, k)).rows, ts, k)
    decreases |ts|
  {
    hide KeyOf, ScopeOf, Append;
    if ts != [] {
      var n := |ts| - 1;
      var us, before := Marked(ts, k), After(LINES, Marked(ts[..n], k)).rows;
      MarkedInit(ts, k);
      MarkedRows(ts[..n], k);
      ScopeOfMarked(ts, k, n);
      assert us[n].output == [] && (n != k ==> us[n].input == []);
      assert After(LINES, us).rows
          == Insert(Insert(before, KeyOf(us[n]), "user", us[n].input), KeyOf(us[n]), "assistant", []);
      assert k < n ==> ts[..n][k] == ts[k];
    }
  }

  /** A fold over rows that lead elsewhere never meets the mark. */
  lemma {:induction false} FoldLacksMark(rows: seq<Row>, scope: Scope)
    requires forall i :: 0 <= i < |rows| ==> rows[i].content == "" || SplitKey(rows[i].key) != Some(scope)
    ensures ("user", "x") !in Fold(LINES, rows, scope)
    decreases |rows|
  {
    hide SplitKey, CStr;
    CStrWithoutNul("");
    if rows != [] {
      FoldLacksMark(rows[..|rows| - 1], scope);
    }
  }

  lemma MarkedNulFree(ts: seq<Turn>, k: nat)
    requires forall i :: 0 <= i < |ts| ==> '\0' !in KeyOf(ts[i])
    ensures AllNulFree(Marked(ts, k))
  {
    hide KeyOf;
    forall i | 0 <= i < |ts|
      ensures NulFree(Marked(ts, k)[i])
    {
      ScopeOfMarked(ts, k, i);
    }
  }

  /** A turn whose key is not faithful spoils the replay for some texts. */
  lemma UnfaithfulShows(ts: seq<Turn>, k: nat)
    requires k < |ts| && !KeyFaithful(ts[k]) && forall i :: 0 <= i < |ts| ==> '\0' !in KeyOf(ts[i])
    ensures AllNulFree(Marked(ts, k)) && !Rebuilt(LINES, Marked(ts, k))
  {
    hide KeyOf, ScopeOf, HistoryOf, Fold, SplitKey, KeyFaithful, AllNulFree, CStr, LINES;
    var scope, rows := ScopeOf(ts[k]), After(LINES, Marked(ts, k)).rows;
    MarkedNulFree(ts, k);
    MarkIsLive(ts, k);
    MarkedRows(ts, k);
    KeyRoundTrip(ts[k]);
    FoldLacksMark(rows, scope);
    ReplayIsFold(LINES, rows, scope);
    RowsAscend(LINES, Marked(ts, k));
    assert Selected(rows, rows);
  }

  /** Whatever the turns say, replaying the table rebuilds every scope exactly when every turn has a
      faithful key. */
  lemma ReplayIffFaithful(ts: seq<Turn>)
    requires forall i :: 0 <= i < |ts| ==> '\0' !in KeyOf(ts[i])
    ensures (forall us :: SameKeys(ts, us) && AllNulFree(us) ==> Rebuilt(LINES, us))
            <==> forall k :: 0 <= k < |ts| ==> KeyFaithful(ts[k])
  {
    if forall k :: 0 <= k < |ts| ==> KeyFaithful(ts[k]) {
      forall us | SameKeys(ts, us) && AllNulFree(us)
        ensures Rebuilt(LINES, us)
      {
        KeysAreFaithful(ts, us);
        FaithfulIsRebuilt(LINES, us);
      }
    } else {
      var k :| 0 <= k < |ts| && !KeyFaithful(ts[k]);
      UnfaithfulShows(ts, k);
    }
  }

  lemma KeysAreFaithful(ts: seq<Turn>, us: seq<Turn>)
    requires SameKeys(ts, us) && forall k :: 0 <= k < |ts| ==> KeyFaithful(ts[k])
    ensures forall k :: 0 <= k < |us| ==> KeyFaithful(us[k])
  {
    forall k | 0 <= k < |us|
      ensures KeyFaithful(us[k])
    {
      assert KeyFaithful(ts[k]);
    }
  }

  lemma FaithfulIsRebuilt<H(!new)>(p: Policy<H>, us: seq<Turn>)
    requires AllNulFree(us) && forall k :: 0 <= k < |us| ==> KeyFaithful(us[k])
    ensures Rebuilt(p, us)
  {
    hide KeyFaithful, AllNulFree, HistoryOf, Fold, Selected, After;
    RowsAscend(p, us);
    forall sorted, scope | Selected(After(p, us).rows, sorted)
      ensures HistoryOf(p, Replay(p, sorted), scope) == HistoryOf(p, After(p, us).histories, scope)
    {
      AfterIsFaithful(p, us, scope);
      SelectedFolds(p, After(p, us).rows, sorted, scope);
    }
  }

  /** An underscore in the channel's name sends the replay to another scope. */
  lemma UnderscoreMoves(t: Turn)
    requires t.channelName == "a_b" && '\0' !in KeyOf(t)
    ensures SplitKey(KeyOf(t)) != Some(ScopeOf(t))
  {
    assert t.channelName[1] == '_';
    KeyRoundTrip(t);
  }

  lemma EmptyHistories<H(!new)>(p: Policy<H>, scope: Scope)
    ensures HistoryOf(p, [], scope) == p.empty && Fold(p, [], scope) == p.empty
  {
  }

  // ---- The orchestrator's part in place --------------------------------------------------------

  class Sessions<!H(!new)> {
    const policy: Policy<H>
    var histories: seq<Entry<H>>
    var rows: seq<Row>

    constructor (policy: Policy<H>, rows: seq<Row>)
      ensures this.policy == policy && histories == [] && this.rows == rows
    {
      this.policy, this.histories, this.rows := policy, [], rows;
    }

    /** The position of the scope's history, which is pushed when it is new. */
    method HistoryFor(scope: Scope) returns (k: nat)
      modifies this`histories
      ensures k < |histories| && k == FindScope(old(histories), scope)
      ensures histories ==
              if k < |old(histories)| then old(histories) else old(histories) + [Entry(scope, policy.empty)]
    {
      k := 0;
      while k < |histories|
        invariant k <= |histories| && histories == old(histories)
        invariant forall i :: 0 <= i < k ==> histories[i].scope != scope
      {
        if histories[k].scope == scope {
          FindScopeUnique(histories, scope, k);
          return;
        }
        k := k + 1;
      }
      FindScopeUnique(histories, scope, k);
      histories := histories + [Entry(scope, policy.empty)];
    }

    method AppendLine(scope: Scope, role: string, content: string)
      modifies this`histories
      ensures histories == Append(policy, old(histories), scope, role, content)
    {
      var k := HistoryFor(scope);
      histories := histories[k := Entry(scope, policy.append(histories[k].history, role, content))];
    }

    method Persist(t: Turn, role: string, content: string)
      modifies this`rows
      ensures rows == Insert(old(rows), KeyOf(t), role, content)
    {
      var key := t.channelName + ['_'] + (t.conversationId + ['_'] + t.senderId);
      rows := rows + [Row(|rows| + 1, key, role, content)];
    }

    method ProcessTurn(t: Turn)
      modifies this
      ensures World(histories, rows) == Process(policy, World(old(histories), old(rows)), t)
    {
      AppendLine(ScopeOf(t), "user", t.input);
      Persist(t, "user", t.input);
      AppendLine(ScopeOf(t), "assistant", t.output);
      Persist(t, "assistant", t.output);
    }

    /** Fills the histories from the rows of a query. */
    method LoadHistory(sorted: seq<Row>)
      requires histories == []
      modifies this`histories
      ensures histories == Replay(policy, sorted)
    {
      var i := 0;
      assert sorted[..0] == [];
      while i < |sorted|
        invariant i <= |sorted|
        invariant histories == Replay(policy, sorted[..i])
      {
        var r := sorted[i];
        assert sorted[..i + 1][..i] == sorted[..i];
        var scope := SplitKey(r.key);
        if scope.Some? {
          AppendLine(scope.value, CStr(r.role), CStr(r.content));
        }
        i := i + 1;
      }
      assert sorted[..|sorted|] == sorted;
    }
  }
}
