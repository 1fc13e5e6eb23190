/** A routine's cooldown: which events of a stream it accepts. Times are nanoseconds since the epoch,
    the cooldown is in milliseconds. */
module Routine {
  import opened Text

  const MILLISECOND_NS: int := 1_000_000

  datatype Event = Event(name: string, at: int)

  /** A routine's settings. */
  datatype Settings = Settings(name: string, enabled: bool, cooldownMs: int)

  /** A last match of zero stands for none. */
  predicate Accepts(r: Settings, last: int, e: Event) {
    && r.enabled && r.name == e.name
    && (r.cooldownMs > 0 && last > 0 ==> Quotient(e.at - last, MILLISECOND_NS) >= r.cooldownMs)
  }

  class Instance {
    const settings: Settings
    var lastMatchedAt: int

    constructor (settings: Settings)
      ensures this.settings == settings && lastMatchedAt == 0
    {
      this.settings, lastMatchedAt := settings, 0;
    }

    method Matches(e: Event) returns (matched: bool)
      modifies this
      ensures matched == Accepts(settings, old(lastMatchedAt), e)
      ensures lastMatchedAt == if matched then e.at else old(lastMatchedAt)
    {
      if !settings.enabled || settings.name != e.name {
        return false;
      }
      if settings.cooldownMs > 0 && lastMatchedAt > 0 {
        var elapsedMs := Quotient(e.at - lastMatchedAt, MILLISECOND_NS);
        if elapsedMs < settings.cooldownMs {
          return false;
        }
      }
      lastMatchedAt := e.at;
      return true;
    }
  }

  // ---- Runs of a fresh routine -----------------------------------------------------------------

  /** The positions of the accepted events. */
  function Accepted(r: Settings, events: seq<Event>): (a: seq<nat>)
    ensures forall k :: 0 <= k < |a| ==> a[k] < |events|
    decreases |events|
  {
    if events == [] then []
    else
      var n := |events| - 1;
      var a := Accepted(r, events[..n]);
      if Accepts(r, Last(events, a), events[n]) then a + [n] else a
  }

  /** The time of the last accepted event, or zero. */
  function Last(events: seq<Event>, a: seq<nat>): int
    requires forall k :: 0 <= k < |a| ==> a[k] < |events|
  {
    if a == [] then 0 else events[a[|a| - 1]].at
  }

  ghost predicate Sorted(events: seq<Event>) {
    forall i, j :: 0 <= i < j < |events| ==> events[i].at <= events[j].at
  }

  /** No event of the routine from the epoch or before, which a match forgets, is followed within the
      cooldown by another of its events; true of every stream with positive times. */
  ghost predicate ForgottenIsLone(r: Settings, events: seq<Event>) {
    forall i, j ::
      0 <= i < j < |events| && events[i].name == r.name == events[j].name && events[i].at <= 0 ==>
        events[j].at - events[i].at >= Gap(r)
  }

  ghost predicate Stream(r: Settings, events: seq<Event>) {
    Sorted(events) && ForgottenIsLone(r, events)
  }

  function Gap(r: Settings): int {
    r.cooldownMs * MILLISECOND_NS
  }

  /** Positions of the routine's events, at least the cooldown apart one from the next. */
  ghost predicate Apart(r: Settings, events: seq<Event>, c: seq<nat>) {
    && (forall k :: 0 <= k < |c| ==> c[k] < |events| && events[c[k]].name == r.name)
    && forall k :: 0 < k < |c| ==> c[k - 1] < c[k] && events[c[k]].at - events[c[k - 1]].at >= Gap(r)
  }

  lemma ElapsedEnough(elapsed: int, ms: int)
    requires ms > 0
    ensures Quotient(elapsed, MILLISECOND_NS) >= ms <==> elapsed >= ms * MILLISECOND_NS
  {
  }

  /** After the last accepted event, the next is accepted iff the cooldown has passed. */
  lemma AcceptsIff(r: Settings, last: int, e: Event)
    requires r.enabled && r.cooldownMs > 0
    ensures Accepts(r, last, e) <==> r.name == e.name && (last > 0 ==> e.at - last >= Gap(r))
  {
    ElapsedEnough(e.at - last, r.cooldownMs);
  }

  lemma LiftApart(r: Settings, events: seq<Event>, n: nat, c: seq<nat>)
    requires n <= |events| && Apart(r, events[..n], c)
    ensures Apart(r, events, c) && forall k :: 0 <= k < |c| ==> c[k] < n
  {
  }

  lemma PushApart(r: Settings, events: seq<Event>, c: seq<nat>, n: nat)
    requires Apart(r, events, c) && n < |events| && events[n].name == r.name
    requires c != [] ==> c[|c| - 1] < n && events[n].at - events[c[|c| - 1]].at >= Gap(r)
    ensures Apart(r, events, c + [n])
  {
  }

  /** The accepted events are the cooldown apart. */
  lemma {:induction false} AcceptedAreApart(r: Settings, events: seq<Event>)
    requires r.enabled && r.cooldownMs > 0 && Stream(r, events)
    ensures Apart(r, events, Accepted(r, events))
    decreases |events|
  {
    hide Accepts, Apart, Gap;
    if events == [] {
      NothingApart(r);
    } else {
      var n := |events| - 1;
      var a := Accepted(r, events[..n]);
      AcceptedAreApart(r, events[..n]);
      LiftApart(r, events, n, a);
      AcceptsIff(r, Last(events, a), events[n]);
      if Accepts(r, Last(events, a), events[n]) {
        PushApart(r, events, a, n);
      }
    }
  }

  lemma NothingApart(r: Settings)
    ensures Apart(r, [], [])
  {
  }

  /** The choice `c` is no larger than the accepted events, and if as large it ends no earlier. */
  ghost predicate NotAhead(r: Settings, events: seq<Event>, c: seq<nat>) {
    && |c| <= |Accepted(r, events)|
    && (c != [] && |c| == |Accepted(r, events)| ==>
          c[|c| - 1] < |events| && Last(events, Accepted(r, events)) <= events[c[|c| - 1]].at)
  }

  lemma NotAheadLater(r: Settings, events: seq<Event>, c: seq<nat>)
    requires r.enabled && r.cooldownMs > 0 && Stream(r, events) && c != [] && c[|c| - 1] < |events| - 1
    requires NotAhead(r, events[..|events| - 1], c)
    ensures NotAhead(r, events, c)
  {
    AcceptedStep(r, events);
    hide Accepted, Last, Gap, Stream;
  }

  lemma NotAheadAtEnd(r: Settings, events: seq<Event>, c: seq<nat>)
    requires r.enabled && r.cooldownMs > 0 && Stream(r, events) && c != []
    requires c[|c| - 1] == |events| - 1 && events[|events| - 1].name == r.name
    requires |c| > 1 ==> c[|c| - 2] < c[|c| - 1] && events[c[|c| - 1]].at - events[c[|c| - 2]].at >= Gap(r)
    requires NotAhead(r, events[..|events| - 1], c[..|c| - 1])
    ensures NotAhead(r, events, c)
  {
    AcceptedStep(r, events);
    var d := c[..|c| - 1];
    assert d != [] ==> d[|d| - 1] == c[|c| - 2];
    hide Accepted, Last, Gap, Stream;
  }

  /** The greedy choice stays ahead of every choice of events the cooldown apart. */
  lemma {:induction false} GreedyIsAhead(r: Settings, events: seq<Event>, c: seq<nat>)
    requires r.enabled && r.cooldownMs > 0 && Stream(r, events) && Apart(r, events, c)
    ensures NotAhead(r, events, c)
    decreases |events|
  {
    if c != [] {
      DropLast(r, events, c);
      StreamInit(r, events, c[|c| - 1]);
      var n, m := |events| - 1, |c| - 1;
      hide NotAhead, Apart, Stream, Gap;
      if c[m] < n {
        ChainIn(r, events, c, n);
        GreedyIsAhead(r, events[..n], c);
        NotAheadLater(r, events, c);
      } else {
        ChainIn(r, events, c[..m], n);
        GreedyIsAhead(r, events[..n], c[..m]);
        NotAheadAtEnd(r, events, c);
      }
    }
  }

  lemma StreamInit(r: Settings, events: seq<Event>, k: nat)
    requires Stream(r, events) && k < |events|
    ensures Stream(r, events[..|events| - 1]) && events[k].at <= events[|events| - 1].at
  {
  }

  /** How the number and the time of the last accepted event change with one more event. */
  lemma AcceptedStep(r: Settings, events: seq<Event>)
    requires r.enabled && r.cooldownMs > 0 && Stream(r, events) && events != []
    ensures var n := |events| - 1;
            var a, b := Accepted(r, events[..n]), Accepted(r, events);
            var last := Last(events[..n], a);
            && (a == [] ==> last == 0) && (a != [] ==> last <= events[n].at)
            && (if events[n].name == r.name && (a != [] ==> events[n].at - last >= Gap(r))
                then |b| == |a| + 1 && Last(events, b) == events[n].at
                else |b| == |a| && Last(events, b) == last)
  {
    hide Accepts, Gap;
    var n := |events| - 1;
    var a := Accepted(r, events[..n]);
    assert Last(events, a) == Last(events[..n], a);
    AcceptsIff(r, Last(events, a), events[n]);
    AcceptedAreOwn(r, events[..n]);
  }

  lemma {:induction false} AcceptedAreOwn(r: Settings, events: seq<Event>)
    ensures forall k :: 0 <= k < |Accepted(r, events)| ==> events[Accepted(r, events)[k]].name == r.name
    decreases |events|
  {
    if events != [] {
      AcceptedAreOwn(r, events[..|events| - 1]);
    }
  }

  lemma DropLast(r: Settings, events: seq<Event>, c: seq<nat>)
    requires Apart(r, events, c) && c != []
    ensures c[|c| - 1] < |events|
    ensures Apart(r, events, c[..|c| - 1]) && events[c[|c| - 1]].name == r.name
    ensures |c| > 1 ==> c[|c| - 2] < c[|c| - 1] && events[c[|c| - 1]].at - events[c[|c| - 2]].at >= Gap(r)
  {
  }

  lemma ChainIn(r: Settings, events: seq<Event>, c: seq<nat>, n: nat)
    requires n < |events| && Apart(r, events, c)
    requires c != [] ==> c[|c| - 1] < n
    ensures Apart(r, events[..n], c)
  {
    forall k | 0 <= k < |c|
      ensures c[k] < n
    {
      ChainAscends(r, events, c, k);
    }
  }

  lemma {:induction false} ChainAscends(r: Settings, events: seq<Event>, c: seq<nat>, k: nat)
    requires Apart(r, events, c) && k < |c|
    ensures c[k] <= c[|c| - 1]
    decreases |c| - k
  {
    if k + 1 < |c| {
      ChainAscends(r, events, c, k + 1);
    }
  }

  /** On a time-sorted stream, an enabled fresh routine accepts a largest possible set of its events
      that are the cooldown apart. */
  lemma AcceptsMost(r: Settings, events: seq<Event>)
    requires r.enabled && r.cooldownMs > 0 && Stream(r, events)
    ensures Apart(r, events, Accepted(r, events))
    ensures forall c :: Apart(r, events, c) ==> |c| <= |Accepted(r, events)|
  {
    AcceptedAreApart(r, events);
    forall c | Apart(r, events, c)
      ensures |c| <= |Accepted(r, events)|
    {
      GreedyIsAhead(r, events, c);
    }
  }

  /** An event of the routine from the epoch or before is always accepted. */
  lemma {:induction false} ForgottenIsAccepted(r: Settings, events: seq<Event>, i: nat) returns (k: nat)
    requires r.enabled && Sorted(events) && i < |events| && events[i].name == r.name && events[i].at <= 0
    ensures k < |Accepted(r, events)| && Accepted(r, events)[k] == i
    decreases |events|
  {
    var n := |events| - 1;
    if i < n {
      k := ForgottenIsAccepted(r, events[..n], i);
    } else {
      k := |Accepted(r, events[..n])|;
      assert k > 0 ==> events[Accepted(r, events[..n])[k - 1]].at <= events[n].at;
    }
  }

  /** An event of the routine within the cooldown of one that is forgotten is accepted too close. */
  lemma {:induction false} ForgottenThenClose(r: Settings, events: seq<Event>, i: nat, j: nat)
    requires r.enabled && r.cooldownMs > 0 && Sorted(events) && i < j < |events|
    requires events[i].name == r.name == events[j].name
    requires events[i].at <= 0 && events[j].at - events[i].at < Gap(r)
    ensures !Apart(r, events, Accepted(r, events))
    decreases |events|
  {
    hide Apart, Accepted, Accepts;
    var n := |events| - 1;
    if j < n {
      ForgottenThenClose(r, events[..n], i, j);
      PrefixTooClose(r, events);
    } else if Apart(r, events[..n], Accepted(r, events[..n])) {
      CloseAtEnd(r, events, i);
    } else {
      PrefixTooClose(r, events);
    }
  }

  lemma CloseAtEnd(r: Settings, events: seq<Event>, i: nat)
    requires r.enabled && r.cooldownMs > 0 && Sorted(events) && i < |events| - 1
    requires events[i].name == r.name == events[|events| - 1].name
    requires events[i].at <= 0 && events[|events| - 1].at - events[i].at < Gap(r)
    requires Apart(r, events[..|events| - 1], Accepted(r, events[..|events| - 1]))
    ensures !Apart(r, events, Accepted(r, events))
  {
    hide Accepted, Apart, Accepts, Gap, Sorted;
    var n := |events| - 1;
    var a := Accepted(r, events[..n]);
    SortedInit(events);
    var k := ForgottenIsAccepted(r, events[..n], i);
    ApartToTheEnd(r, events, n, a, k);
    AcceptsIff(r, Last(events, a), events[n]);
    OneMore(r, events, a);
    TooCloseAt(r, events, a + [n], |a|);
  }

  lemma SortedInit(events: seq<Event>)
    requires Sorted(events) && events != []
    ensures Sorted(events[..|events| - 1])
  {
  }

  lemma OneMore(r: Settings, events: seq<Event>, a: seq<nat>)
    requires events != [] && a == Accepted(r, events[..|events| - 1])
    requires Accepts(r, Last(events, a), events[|events| - 1])
    ensures Accepted(r, events) == a + [|events| - 1]
  {
    hide Accepts;
  }

  lemma TooCloseAt(r: Settings, events: seq<Event>, c: seq<nat>, k: nat)
    requires 0 < k < |c| && c[k - 1] < |events| && c[k] < |events| && events[c[k]].at - events[c[k - 1]].at < Gap(r)
    ensures !Apart(r, events, c)
  {
    hide Gap;
  }

  /** A choice that stays within the cooldown of one of its events ends with it. */
  lemma ApartToTheEnd(r: Settings, events: seq<Event>, n: nat, a: seq<nat>, k: nat)
    requires Sorted(events) && n < |events| && Apart(r, events[..n], a) && k < |a| && a[k] < n
    requires events[n].at - events[a[k]].at < Gap(r)
    ensures k == |a| - 1
  {
    hide Gap, Sorted, Apart;
    if k + 1 < |a| {
      NextIsLater(r, events[..n], a, k);
      InOrder(events, a[k + 1], n);
    }
  }

  lemma NextIsLater(r: Settings, events: seq<Event>, a: seq<nat>, k: nat)
    requires Apart(r, events, a) && k + 1 < |a|
    ensures a[k] < a[k + 1] < |events| && events[a[k + 1]].at - events[a[k]].at >= Gap(r)
  {
    hide Gap;
  }

  lemma InOrder(events: seq<Event>, i: nat, j: nat)
    requires Sorted(events) && i <= j < |events|
    ensures events[i].at <= events[j].at
  {
  }

  lemma PrefixTooClose(r: Settings, events: seq<Event>)
    requires events != []
    requires !Apart(r, events[..|events| - 1], Accepted(r, events[..|events| - 1]))
    ensures !Apart(r, events, Accepted(r, events))
  {
    hide Accepts, Gap;
    var n := |events| - 1;
    AcceptedAreOwn(r, events[..n]);
    TooCloseStays(r, events, Accepted(r, events[..n]), Accepted(r, events));
  }

  lemma TooCloseStays(r: Settings, events: seq<Event>, a: seq<nat>, b: seq<nat>)
    requires events != [] && a <= b && !Apart(r, events[..|events| - 1], a)
    requires forall k :: 0 <= k < |a| ==> a[k] < |events| - 1 && events[a[k]].name == r.name
    ensures !Apart(r, events, b)
  {
    hide Gap;
    var k :| 0 < k < |a| && !(a[k - 1] < a[k] && events[a[k]].at - events[a[k - 1]].at >= Gap(r));
    assert b[k] == a[k] && b[k - 1] == a[k - 1];
  }

  /** On a time-sorted stream, the accepted events are the cooldown apart, and as many as can be,
      exactly when no event of the routine from the epoch or before has another within the cooldown:
      such a match is not remembered, so the next event is taken whatever the cooldown. */
  lemma CooldownHolds(r: Settings, events: seq<Event>)
    requires r.enabled && r.cooldownMs > 0 && Sorted(events)
    ensures Apart(r, events, Accepted(r, events)) <==> ForgottenIsLone(r, events)
    ensures ForgottenIsLone(r, events) ==> forall c :: Apart(r, events, c) ==> |c| <= |Accepted(r, events)|
  {
    if ForgottenIsLone(r, events) {
      AcceptsMost(r, events);
    } else {
      var i, j :| 0 <= i < j < |events| && events[i].name == r.name == events[j].name
                  && events[i].at <= 0 && events[j].at - events[i].at < Gap(r);
      ForgottenThenClose(r, events, i, j);
    }
  }

  /** Two events at the epoch are both accepted. */
  lemma EpochIsForgotten(r: Settings)
    requires r.enabled && r.cooldownMs > 0
    ensures var events := [Event(r.name, 0), Event(r.name, 0)];
            !Apart(r, events, Accepted(r, events))
  {
    ForgottenThenClose(r, [Event(r.name, 0), Event(r.name, 0)], 0, 1);
  }

  /** A disabled routine accepts nothing. */
  lemma {:induction false} DisabledAcceptsNothing(r: Settings, events: seq<Event>)
    requires !r.enabled
    ensures Accepted(r, events) == []
    decreases |events|
  {
    if events != [] {
      DisabledAcceptsNothing(r, events[..|events| - 1]);
    }
  }

  /** Without a cooldown an enabled routine accepts its events, and just those. */
  lemma {:induction false} NoCooldown(r: Settings, events: seq<Event>)
    requires r.enabled && r.cooldownMs <= 0
    ensures forall i: nat :: i < |events| ==> (i in Accepted(r, events) <==> events[i].name == r.name)
    decreases |events|
  {
    if events != [] {
      NoCooldown(r, events[..|events| - 1]);
    }
  }
}
