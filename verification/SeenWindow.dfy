/** The bounded window of recently accepted ids: message ids in the orchestrator, nonces in the
    webhook channel. An empty id is never remembered and never a duplicate. */
module SeenWindow {

  const MAX_NONCES: nat := 1024

  predicate Seen(window: seq<string>, id: string) {
    id != [] && id in window
  }

  /** The oldest ids are dropped until the new one fits. */
  function Remember(window: seq<string>, id: string, max: nat): seq<string>
    requires max > 0
  {
    if id == [] then window
    else (if |window| < max then window else window[|window| - max + 1..]) + [id]
  }

  function LastN(s: seq<string>, n: nat): seq<string> {
    if |s| <= n then s else s[|s| - n..]
  }

  /** What a run of offered ids leaves: the window, and every non-empty id that was accepted. */
  datatype Record = Record(window: seq<string>, accepted: seq<string>)

  function Offer(r: Record, id: string, max: nat): Record
    requires max > 0
  {
    if Seen(r.window, id) then r
    else Record(Remember(r.window, id, max), if id == [] then r.accepted else r.accepted + [id])
  }

  function Run(ids: seq<string>, max: nat): Record
    requires max > 0
    decreases |ids|
  {
    if ids == [] then Record([], []) else Offer(Run(ids[..|ids| - 1], max), ids[|ids| - 1], max)
  }

  /** Equal ids are more than `n` places apart. */
  ghost predicate Spaced(s: seq<string>, n: nat) {
    forall i, j :: 0 <= i < j < |s| && j - i <= n ==> s[i] != s[j]
  }

  ghost predicate Faithful(r: Record, max: nat) {
    && r.window == LastN(r.accepted, max) && Spaced(r.accepted, max)
    && forall i :: 0 <= i < |r.accepted| ==> r.accepted[i] != []
  }

  lemma RememberIsRecent(accepted: seq<string>, id: string, max: nat)
    requires max > 0 && id != []
    ensures Remember(LastN(accepted, max), id, max) == LastN(accepted + [id], max)
  {
  }

  lemma OfferKeepsFaithful(r: Record, id: string, max: nat)
    requires max > 0 && Faithful(r, max)
    ensures Faithful(Offer(r, id, max), max)
  {
    if !Seen(r.window, id) && id != [] {
      var accepted := r.accepted + [id];
      RememberIsRecent(r.accepted, id, max);
      assert Remember(r.window, id, max) == LastN(accepted, max);
      forall i | 0 <= i < |r.accepted| && |r.accepted| - i <= max
        ensures accepted[i] != id
      {
        var k := i - (|r.accepted| - |r.window|);
        assert r.window[k] == r.accepted[i];
      }
    }
  }

  /** After any run the window holds exactly the last `max` accepted ids. */
  lemma {:induction false} WindowIsRecent(ids: seq<string>, max: nat)
    requires max > 0
    ensures Faithful(Run(ids, max), max)
    decreases |ids|
  {
    if ids != [] {
      WindowIsRecent(ids[..|ids| - 1], max);
      OfferKeepsFaithful(Run(ids[..|ids| - 1], max), ids[|ids| - 1], max);
    }
  }

  /** After any run an id is a duplicate iff it is non-empty and one of the last `max` accepted. */
  lemma DuplicateIff(ids: seq<string>, id: string, max: nat)
    requires max > 0
    ensures Seen(Run(ids, max).window, id) <==> id != [] && id in LastN(Run(ids, max).accepted, max)
    ensures var w := Run(ids, max).window;
            |w| <= max && forall i, j :: 0 <= i < j < |w| ==> w[i] != w[j]
  {
    WindowIsRecent(ids, max);
    var r := Run(ids, max);
    forall i, j | 0 <= i < j < |r.window|
      ensures r.window[i] != r.window[j]
    {
      var d := |r.accepted| - |r.window|;
      assert r.window[i] == r.accepted[d + i] && r.window[j] == r.accepted[d + j];
    }
  }

  function Elements(s: seq<string>): set<string> {
    set k | 0 <= k < |s| :: s[k]
  }

  lemma {:induction false} DistinctCount(s: seq<string>)
    requires forall i, j :: 0 <= i < j < |s| ==> s[i] != s[j]
    ensures |Elements(s)| == |s|
  {
    if s != [] {
      var n := |s| - 1;
      DistinctCount(s[..n]);
      assert Elements(s) == Elements(s[..n]) + {s[n]};
    }
  }

  lemma SpacedApart(a: seq<string>, max: nat, i: nat, j: nat)
    requires Spaced(a, max) && i < j < |a| && a[i] == a[j]
    ensures j - max > i && a[i] !in Elements(a[j - max..j]) && |Elements(a[j - max..j])| == max
  {
    var recent := a[j - max..j];
    assert forall k :: 0 <= k < |recent| ==> recent[k] == a[j - max + k];
    DistinctCount(recent);
  }

  /** Two acceptances of one id have at least `max` distinct other accepted ids between them. */
  lemma AcceptancesAreApart(ids: seq<string>, max: nat, i: nat, j: nat)
    requires max > 0 && i < j < |Run(ids, max).accepted|
    requires Run(ids, max).accepted[i] == Run(ids, max).accepted[j]
    ensures var a := Run(ids, max).accepted;
            && i < j - max && a[i] !in Elements(a[j - max..j]) && |Elements(a[j - max..j])| == max
  {
    hide Run, Elements;
    WindowIsRecent(ids, max);
    SpacedApart(Run(ids, max).accepted, max, i, j);
  }

  class IdWindow {
    var ids: seq<string>
    const max: nat

    ghost predicate Valid()
      reads this
    {
      0 < max && |ids| <= max
    }

    constructor (capacity: nat)
      requires capacity > 0
      ensures Valid() && ids == [] && max == capacity
    {
      ids, max := [], capacity;
    }

    method IsSeen(id: string) returns (seen: bool)
      ensures seen == Seen(ids, id)
    {
      if id == [] {
        return false;
      }
      var i := 0;
      while i < |ids|
        invariant i <= |ids| && id !in ids[..i]
      {
        if ids[i] == id {
          return true;
        }
        i := i + 1;
      }
      return false;
    }

    method Add(id: string)
      requires max > 0
      modifies this
      ensures ids == Remember(old(ids), id, max)
      ensures old(Valid()) ==> Valid()
    {
      if id == [] {
        return;
      }
      var before := ids;
      while |ids| >= max
        invariant |ids| <= |before| && ids == before[|before| - |ids|..]
        invariant |before| < max ==> ids == before
        invariant |before| >= max ==> |ids| >= max - 1
      {
        ids := ids[1..];
      }
      ids := ids + [id];
    }

    /** The orchestrator's duplicate check: a new id is remembered before anything else is done. */
    method Accept(id: string) returns (duplicate: bool)
      requires Valid()
      modifies this
      ensures Valid() && duplicate == Seen(old(ids), id)
      ensures ids == Offer(Record(old(ids), []), id, max).window
    {
      duplicate := IsSeen(id);
      if !duplicate {
        Add(id);
      }
    }
  }
}
