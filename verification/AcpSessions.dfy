/** The ACP server's bounded session table: numbered ids, idle eviction in place, stop. */
module AcpSessions {
  import opened Sequences
  import opened Text

  const U64: nat := 0x1_0000_0000_0000_0000
  const DEFAULT_MAX: nat := 16
  const DEFAULT_IDLE: nat := 3600
  const ID_PREFIX: string := "acp-"

  datatype Session = Session(id: string, cwd: string, systemPrompt: string, lastUsed: int)

  function IdOf(n: nat): (id: string)
    ensures id != []
  {
    ID_PREFIX + Decimal(n)
  }

  lemma IdsAreDistinct(m: nat, n: nat)
    requires IdOf(m) == IdOf(n)
    ensures m == n
  {
    assert IdOf(m)[|ID_PREFIX|..] == Decimal(m);
    assert IdOf(n)[|ID_PREFIX|..] == Decimal(n);
    DecimalInjective(m, n);
  }

  // ---- Operations on values --------------------------------------------------------------------

  datatype Table = Table(sessions: seq<Session>, next: nat)

  function FindSession(sessions: seq<Session>, id: string): (k: nat)
    ensures k <= |sessions|
    ensures k < |sessions| ==> sessions[k].id == id
    ensures forall i :: 0 <= i < k ==> sessions[i].id != id
  {
    FirstWhere(sessions, (s: Session) => s.id == id)
  }

  predicate Expired(s: Session, idle: nat, now: int) {
    now >= s.lastUsed && now - s.lastUsed > idle
  }

  /** The sessions that have not expired, in their order. */
  function Kept(sessions: seq<Session>, idle: nat, now: int): seq<Session>
    decreases |sessions|
  {
    if sessions == [] then []
    else
      Kept(sessions[..|sessions| - 1], idle, now)
      + (if Expired(sessions[|sessions| - 1], idle, now) then [] else [sessions[|sessions| - 1]])
  }

  function Evicted(sessions: seq<Session>, idle: nat, now: int): seq<Session> {
    if idle == 0 then sessions else Kept(sessions, idle, now)
  }

  function Removed(sessions: seq<Session>, id: string): seq<Session> {
    var k := FindSession(sessions, id);
    if id == [] || k == |sessions| then sessions else sessions[..k] + sessions[k + 1..]
  }

  function Touched(sessions: seq<Session>, id: string, now: int): seq<Session> {
    var k := FindSession(sessions, id);
    if id == [] || k == |sessions| then sessions else sessions[k := sessions[k].(lastUsed := now)]
  }

  /** The id a new session gets, if there is room for one. */
  function NewId(t: Table, max: nat): Option<string> {
    if |t.sessions| >= max then None else Some(IdOf(t.next))
  }

  function Opened(t: Table, max: nat, cwd: string, systemPrompt: string, now: int): Table {
    match NewId(t, max)
    case None => t
    case Some(id) => Table(t.sessions + [Session(id, cwd, systemPrompt, now)], (t.next + 1) % U64)
  }

  // ---- Numbered tables -------------------------------------------------------------------------

  /** Sessions carry ids issued so far, each a different one: their numbers ascend along the table. */
  ghost predicate Numbered(sessions: seq<Session>, numbers: seq<nat>, next: nat) {
    && |numbers| == |sessions|
    && (forall i :: 0 <= i < |numbers| ==> sessions[i].id == IdOf(numbers[i]) && 0 < numbers[i] < next)
    && forall i, j :: 0 <= i < j < |numbers| ==> numbers[i] < numbers[j]
  }

  ghost predicate DistinctIds(sessions: seq<Session>) {
    && (forall i :: 0 <= i < |sessions| ==> sessions[i].id != [])
    && forall i, j :: 0 <= i < j < |sessions| ==> sessions[i].id != sessions[j].id
  }

  lemma NumberedIsDistinct(sessions: seq<Session>, numbers: seq<nat>, next: nat)
    requires Numbered(sessions, numbers, next)
    ensures DistinctIds(sessions)
  {
    forall i, j | 0 <= i < j < |sessions|
      ensures sessions[i].id != sessions[j].id
    {
      if sessions[i].id == sessions[j].id {
        IdsAreDistinct(numbers[i], numbers[j]);
      }
    }
  }

  /** Removing any one session keeps the others numbered. */
  lemma DropKeepsNumbers(sessions: seq<Session>, numbers: seq<nat>, next: nat, k: nat)
    requires Numbered(sessions, numbers, next) && k < |sessions|
    ensures Numbered(sessions[..k] + sessions[k + 1..], numbers[..k] + numbers[k + 1..], next)
  {
  }

  lemma WalkStart(all: seq<Session>, idle: nat, now: int)
    ensures all[..0] == Kept(all[..0], idle, now)
  {
  }

  /** One step of the eviction walk: the session looked at is dropped or passed over. */
  lemma WalkStep(sessions: seq<Session>, i: nat, all: seq<Session>, done: nat, idle: nat, now: int)
    requires i < |sessions| && done <= |all| && sessions[i..] == all[done..]
    requires sessions[..i] == Kept(all[..done], idle, now)
    ensures done < |all| && sessions[i] == all[done]
    ensures Expired(sessions[i], idle, now) <==>
              now >= sessions[i].lastUsed && now - sessions[i].lastUsed > idle
    ensures var rest := if Expired(sessions[i], idle, now) then sessions[..i] + sessions[i + 1..] else sessions;
            var k := if Expired(sessions[i], idle, now) then i else i + 1;
            rest[..k] == Kept(all[..done + 1], idle, now) && rest[k..] == all[done + 1..]
  {
    assert |sessions[i..]| == |all[done..]| && sessions[i..][0] == all[done..][0];
    assert all[..done + 1][..done] == all[..done];
    assert sessions[i..][1..] == sessions[i + 1..] && all[done..][1..] == all[done + 1..];
  }

  lemma WalkEnd(sessions: seq<Session>, i: nat, all: seq<Session>, done: nat, idle: nat, now: int)
    requires i == |sessions| && done <= |all| && sessions[i..] == all[done..]
    requires sessions[..i] == Kept(all[..done], idle, now) && idle > 0
    ensures sessions == Evicted(all, idle, now)
  {
    assert sessions[..i] == sessions && |all[done..]| == 0 && all[..done] == all;
  }

  // ---- The table in place ----------------------------------------------------------------------

  class Server {
    var sessions: seq<Session>
    var nextSession: nat
    const maxSessions: nat
    const idleTimeout: nat

    function View(): Table
      reads this
    {
      Table(sessions, nextSession)
    }

    /** Zero options stand for the defaults. */
    constructor (maxOption: nat, idleOption: nat)
      ensures View() == Table([], 1) && maxSessions > 0 && idleTimeout > 0
      ensures maxSessions == (if maxOption == 0 then DEFAULT_MAX else maxOption)
      ensures idleTimeout == (if idleOption == 0 then DEFAULT_IDLE else idleOption)
    {
      sessions, nextSession := [], 1;
      maxSessions := if maxOption == 0 then DEFAULT_MAX else maxOption;
      idleTimeout := if idleOption == 0 then DEFAULT_IDLE else idleOption;
    }

    method Remove(id: string) returns (found: bool)
      modifies this`sessions
      ensures sessions == Removed(old(sessions), id)
      ensures found <==> id != [] && FindSession(old(sessions), id) < |old(sessions)|
    {
      if id == [] {
        return false;
      }
      var i := 0;
      while i < |sessions|
        invariant i <= |sessions| && sessions == old(sessions)
        invariant forall j :: 0 <= j < i ==> sessions[j].id != id
      {
        if sessions[i].id == id {
          sessions := sessions[..i] + sessions[i + 1..];
          return true;
        }
        i := i + 1;
      }
      return false;
    }

    /** Eviction removes by id while walking the vector; over distinct non-empty ids it ends, and
        leaves the sessions that have not expired in their order. */
    method EvictIdle(now: int)
      requires DistinctIds(sessions)
      modifies this`sessions
      ensures sessions == Evicted(old(sessions), idleTimeout, now)
    {
      if idleTimeout == 0 {
        return;
      }
      hide *;
      ghost var done := 0;
      ghost var all := sessions;
      var i := 0;
      WalkStart(all, idleTimeout, now);
      while i < |sessions|
        invariant i <= |sessions| && done <= |all| && DistinctIds(sessions)
        invariant sessions[..i] == Kept(all[..done], idleTimeout, now) && sessions[i..] == all[done..]
        decreases |sessions| - i
      {
        var session := sessions[i];
        WalkStep(sessions, i, all, done, idleTimeout, now);
        if now >= session.lastUsed && now - session.lastUsed > idleTimeout {
          RemovedAt(sessions, i);
          var _ := Remove(session.id);
        } else {
          i := i + 1;
        }
        done := done + 1;
      }
      WalkEnd(sessions, i, all, done, idleTimeout, now);
    }

    method NewSession(cwd: string, systemPrompt: string, now: int) returns (id: Option<string>)
      modifies this
      ensures id == NewId(old(View()), maxSessions)
      ensures View() == Opened(old(View()), maxSessions, cwd, systemPrompt, now)
    {
      if |sessions| >= maxSessions {
        return None;
      }
      var text := IdOf(nextSession);
      nextSession := (nextSession + 1) % U64;
      sessions := sessions + [Session(text, cwd, systemPrompt, now)];
      return Some(text);
    }

    /** The table's part of a prompt: an empty prompt is refused before the session is looked up. */
    method Prompt(id: string, prompt: string, now: int) returns (found: bool)
      modifies this`sessions
      ensures sessions == if prompt == [] then old(sessions) else Touched(old(sessions), id, now)
      ensures found <==> id != [] && prompt != [] && FindSession(old(sessions), id) < |old(sessions)|
    {
      if id == [] || prompt == [] {
        return false;
      }
      var i := 0;
      while i < |sessions|
        invariant i <= |sessions| && sessions == old(sessions)
        invariant forall j :: 0 <= j < i ==> sessions[j].id != id
      {
        if sessions[i].id == id {
          sessions := sessions[i := sessions[i].(lastUsed := now)];
          return true;
        }
        i := i + 1;
      }
      return false;
    }
  }

  lemma RemovedAt(sessions: seq<Session>, i: nat)
    requires DistinctIds(sessions) && i < |sessions|
    ensures Removed(sessions, sessions[i].id) == sessions[..i] + sessions[i + 1..]
    ensures DistinctIds(sessions[..i] + sessions[i + 1..])
  {
    var k := FindSession(sessions, sessions[i].id);
    assert k == i;
  }

  // ---- Runs ------------------------------------------------------------------------------------

  datatype Step =
    | Evict(now: int)
    | New(cwd: string, systemPrompt: string, at: int)
    | Use(id: string, prompt: string, usedAt: int)
    | Stop(stopped: string)

  datatype World = World(table: Table, issued: seq<string>)

  const START: World := World(Table([], 1), [])

  /** Counter wrap is out of scope: a session is opened only below it. */
  predicate Allowed(w: World, step: Step) {
    step.New? ==> w.table.next + 1 < U64
  }

  function Next(max: nat, idle: nat, w: World, step: Step): World {
    var t := w.table;
    match step
    case Evict(now) => w.(table := t.(sessions := Evicted(t.sessions, idle, now)))
    case New(cwd, prompt, now) =>
      var id := NewId(t, max);
      World(Opened(t, max, cwd, prompt, now), if id.Some? then w.issued + [id.value] else w.issued)
    case Use(id, prompt, now) => if prompt == [] then w else w.(table := t.(sessions := Touched(t.sessions, id, now)))
    case Stop(id) => w.(table := t.(sessions := Removed(t.sessions, id)))
  }

  ghost predicate IsRun(max: nat, idle: nat, run: seq<World>, steps: seq<Step>) {
    && |run| == |steps| + 1 && run[0] == START
    && forall i :: 0 <= i < |steps| ==> Allowed(run[i], steps[i]) && run[i + 1] == Next(max, idle, run[i], steps[i])
  }

  /** The sessions of the table are an ascending choice among the ids issued so far. */
  ghost predicate Sound(max: nat, w: World) {
    && |w.table.sessions| <= max
    && w.table.next == |w.issued| + 1
    && (forall i :: 0 <= i < |w.issued| ==> w.issued[i] == IdOf(i + 1))
    && exists numbers :: Numbered(w.table.sessions, numbers, w.table.next)
  }

  lemma NumberedPush(sessions: seq<Session>, numbers: seq<nat>, next: nat, s: Session, n: nat)
    requires Numbered(sessions, numbers, next) && s.id == IdOf(n) && 0 < n < next
    requires forall i :: 0 <= i < |numbers| ==> numbers[i] < n
    ensures Numbered(sessions + [s], numbers + [n], next)
  {
    hide IdOf;
  }

  lemma {:induction false} KeptIsNumbered(sessions: seq<Session>, numbers: seq<nat>, next: nat, idle: nat, now: int)
      returns (kept: seq<nat>)
    requires Numbered(sessions, numbers, next)
    ensures Numbered(Kept(sessions, idle, now), kept, next)
    ensures numbers != [] ==> forall i :: 0 <= i < |kept| ==> kept[i] <= numbers[|numbers| - 1]
    decreases |sessions|
  {
    hide Expired, IdOf;
    if sessions == [] {
      kept := [];
    } else {
      var n := |sessions| - 1;
      kept := KeptIsNumbered(sessions[..n], numbers[..n], next, idle, now);
      assert n > 0 ==> numbers[..n][n - 1] < numbers[n];
      assert n == 0 ==> Kept(sessions[..n], idle, now) == [];
      if Expired(sessions[n], idle, now) {
        assert Kept(sessions[..n], idle, now) + [] == Kept(sessions[..n], idle, now);
      } else {
        NumberedPush(Kept(sessions[..n], idle, now), kept, next, sessions[n], numbers[n]);
        kept := kept + [numbers[n]];
      }
    }
  }

  lemma TouchKeepsNumbers(sessions: seq<Session>, numbers: seq<nat>, next: nat, id: string, now: int)
    requires Numbered(sessions, numbers, next)
    ensures Numbered(Touched(sessions, id, now), numbers, next)
  {
    hide IdOf;
  }

  lemma RemoveKeepsNumbers(sessions: seq<Session>, numbers: seq<nat>, next: nat, id: string) returns (rest: seq<nat>)
    requires Numbered(sessions, numbers, next)
    ensures Numbered(Removed(sessions, id), rest, next) && |Removed(sessions, id)| <= |sessions|
  {
    hide Numbered;
    rest := numbers;
    var k := FindSession(sessions, id);
    if id != [] && k < |sessions| {
      NumberedLength(sessions, numbers, next);
      DropKeepsNumbers(sessions, numbers, next, k);
      rest := numbers[..k] + numbers[k + 1..];
    }
  }

  lemma NumberedLength(sessions: seq<Session>, numbers: seq<nat>, next: nat)
    requires Numbered(sessions, numbers, next)
    ensures |numbers| == |sessions|
  {
  }

  lemma NumberedLater(sessions: seq<Session>, numbers: seq<nat>, next: nat)
    requires Numbered(sessions, numbers, next)
    ensures Numbered(sessions, numbers, next + 1) && forall i :: 0 <= i < |numbers| ==> numbers[i] < next
  {
  }

  lemma OpenKeepsSound(max: nat, w: World, cwd: string, prompt: string, now: int)
    requires Sound(max, w) && w.table.next + 1 < U64
    ensures Sound(max, Next(max, 0, w, New(cwd, prompt, now)))
  {
    hide IdOf, Numbered;
    var t := w.table;
    var numbers :| Numbered(t.sessions, numbers, t.next);
    if |t.sessions| < max {
      NumberedLater(t.sessions, numbers, t.next);
      NumberedPush(t.sessions, numbers, t.next + 1, Session(IdOf(t.next), cwd, prompt, now), t.next);
      assert Numbered(Opened(t, max, cwd, prompt, now).sessions, numbers + [t.next], t.next + 1);
    }
  }

  lemma StepKeepsSound(max: nat, idle: nat, w: World, step: Step)
    requires Sound(max, w) && Allowed(w, step)
    ensures Sound(max, Next(max, idle, w, step))
  {
    hide IdOf, Numbered, Kept, Removed, Touched, Opened, NewId;
    var t := w.table;
    var numbers :| Numbered(t.sessions, numbers, t.next);
    match step
    case Evict(now) =>
      KeptIsShorter(t.sessions, idle, now);
      var kept := KeptIsNumbered(t.sessions, numbers, t.next, idle, now);
      assert Numbered(Kept(t.sessions, idle, now), kept, t.next);
    case New(cwd, prompt, now) => OpenKeepsSound(max, w, cwd, prompt, now);
    case Use(id, prompt, now) =>
      TouchKeepsNumbers(t.sessions, numbers, t.next, id, now);
      TouchedLength(t.sessions, id, now);
    case Stop(id) =>
      var rest := RemoveKeepsNumbers(t.sessions, numbers, t.next, id);
  }

  lemma TouchedLength(sessions: seq<Session>, id: string, now: int)
    ensures |Touched(sessions, id, now)| == |sessions|
  {
  }

  lemma {:induction false} KeptIsShorter(sessions: seq<Session>, idle: nat, now: int)
    ensures |Kept(sessions, idle, now)| <= |sessions|
    decreases |sessions|
  {
    if sessions != [] {
      KeptIsShorter(sessions[..|sessions| - 1], idle, now);
    }
  }

  lemma {:induction false} RunIsSound(max: nat, idle: nat, run: seq<World>, steps: seq<Step>, i: nat)
    requires IsRun(max, idle, run, steps) && i < |run|
    ensures Sound(max, run[i])
  {
    if i == 0 {
      assert Numbered([], [], 1);
    } else {
      RunIsSound(max, idle, run, steps, i - 1);
      StepKeepsSound(max, idle, run[i - 1], steps[i - 1]);
    }
  }

  /** In every state of every run the table is within its bound, no two sessions share an id, and no
      id is ever issued twice. */
  lemma SessionsAreDistinct(max: nat, idle: nat, run: seq<World>, steps: seq<Step>, i: nat)
    requires IsRun(max, idle, run, steps) && i < |run|
    ensures |run[i].table.sessions| <= max && DistinctIds(run[i].table.sessions)
    ensures forall j, k :: 0 <= j < k < |run[i].issued| ==> run[i].issued[j] != run[i].issued[k]
  {
    RunIsSound(max, idle, run, steps, i);
    var t := run[i].table;
    var numbers :| Numbered(t.sessions, numbers, t.next);
    NumberedIsDistinct(t.sessions, numbers, t.next);
    forall j, k | 0 <= j < k < |run[i].issued|
      ensures run[i].issued[j] != run[i].issued[k]
    {
      if run[i].issued[j] == run[i].issued[k] {
        IdsAreDistinct(j + 1, k + 1);
      }
    }
  }

  predicate Present(w: World, id: string) {
    exists i :: 0 <= i < |w.table.sessions| && w.table.sessions[i].id == id
  }

  /** An issued id that has left the table, by stop or eviction, never comes back. */
  lemma {:induction false} GoneForGood(
    max: nat, idle: nat, run: seq<World>, steps: seq<Step>, i: nat, j: nat, id: string)
    requires IsRun(max, idle, run, steps) && i <= j < |run|
    requires id in run[i].issued && !Present(run[i], id)
    ensures id in run[j].issued && !Present(run[j], id)
    decreases j - i
  {
    if i < j {
      RunIsSound(max, idle, run, steps, i);
      StaysGone(max, idle, run[i], steps[i], id);
      GoneForGood(max, idle, run, steps, i + 1, j, id);
    }
  }

  lemma StaysGone(max: nat, idle: nat, w: World, step: Step, id: string)
    requires Sound(max, w) && id in w.issued && !Present(w, id)
    ensures id in Next(max, idle, w, step).issued && !Present(Next(max, idle, w, step), id)
  {
    hide IdOf, Kept, Expired, Numbered;
    var k :| 0 <= k < |w.issued| && w.issued[k] == id;
    var after := Next(max, idle, w, step).table.sessions;
    if Present(Next(max, idle, w, step), id) {
      var i :| 0 <= i < |after| && after[i].id == id;
      var s := after[i];
      if step.New? && s !in w.table.sessions {
        IdsAreDistinct(w.table.next, k + 1);
      } else if step.Evict? {
        KeptComesFrom(w.table.sessions, idle, step.now, s);
      }
    }
  }

  lemma {:induction false} KeptComesFrom(sessions: seq<Session>, idle: nat, now: int, s: Session)
    requires s in Kept(sessions, idle, now)
    ensures s in sessions && !Expired(s, idle, now)
    decreases |sessions|
  {
    var n := |sessions| - 1;
    if s in Kept(sessions[..n], idle, now) {
      KeptComesFrom(sessions[..n], idle, now, s);
    }
  }

  // ---- What an operation leaves alone ----------------------------------------------------------

  lemma SessionAt(front: seq<Session>, s: Session, back: seq<Session>)
    requires DistinctIds(front + [s] + back)
    ensures FindSession(front + [s] + back, s.id) == |front| && s.id != []
  {
    var all := front + [s] + back;
    var k := FindSession(all, s.id);
    assert all[|front|] == s;
  }

  /** A stop takes out the session of that id and no other; a prompt only stamps it. */
  lemma OneSession(front: seq<Session>, s: Session, back: seq<Session>, now: int)
    requires DistinctIds(front + [s] + back)
    ensures Removed(front + [s] + back, s.id) == front + back
    ensures Touched(front + [s] + back, s.id, now) == front + [s.(lastUsed := now)] + back
  {
    hide FindSession;
    SessionAt(front, s, back);
  }

  /** A new session is the last of the table, stamped now, with what the request gave; the others stay. */
  lemma NewIsLast(t: Table, max: nat, cwd: string, systemPrompt: string, now: int)
    ensures var v := Opened(t, max, cwd, systemPrompt, now);
            if |t.sessions| < max
            then v.sessions == t.sessions + [Session("acp-" + Decimal(t.next), cwd, systemPrompt, now)]
            else v == t
  {
  }

  /** Eviction keeps exactly the sessions used within the idle time, or used later than the clock. */
  lemma {:induction false} KeptIff(sessions: seq<Session>, idle: nat, now: int, s: Session)
    ensures s in Kept(sessions, idle, now) <==> s in sessions && now - s.lastUsed <= idle
    decreases |sessions|
  {
    if sessions != [] {
      KeptIff(sessions[..|sessions| - 1], idle, now, s);
      assert sessions == sessions[..|sessions| - 1] + [sessions[|sessions| - 1]];
    }
  }

  /** In a run, a prompt stamps its session, unless the prompt is empty. */
  lemma PromptStep(
    max: nat, idle: nat, w: World, front: seq<Session>, s: Session, back: seq<Session>, prompt: string, now: int)
    requires w.table.sessions == front + [s] + back && DistinctIds(w.table.sessions)
    ensures Next(max, idle, w, Use(s.id, prompt, now)).table.sessions
         == if prompt == [] then front + [s] + back else front + [s.(lastUsed := now)] + back
  {
    hide Touched;
    OneSession(front, s, back, now);
  }

  /** A prompt keeps its session through every eviction of the idle time that follows. */
  lemma PromptKeeps(front: seq<Session>, s: Session, back: seq<Session>, idle: nat, used: int, now: int)
    requires DistinctIds(front + [s] + back) && now - used <= idle
    ensures s.(lastUsed := used) in Evicted(Touched(front + [s] + back, s.id, used), idle, now)
  {
    OneSession(front, s, back, used);
    KeptIff(front + [s.(lastUsed := used)] + back, idle, now, s.(lastUsed := used));
    assert (front + [s.(lastUsed := used)] + back)[|front|] == s.(lastUsed := used);
  }
}
