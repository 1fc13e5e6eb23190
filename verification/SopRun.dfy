/** A run of a standard operating procedure: the step counter, the approval gate, and the audit
    trail, on which every append succeeds. */
module SopRun {

  datatype Step = Step(name: string, requiresApproval: bool)

  datatype Kind = ApprovalRequired | StepCompleted | ManualApproved

  datatype Record = Record(kind: Kind, name: string)

  datatype State = State(current: nat, waiting: bool, completed: bool)

  datatype Status = Done | ApprovalPending | Refused

  const START: State := State(0, false, false)

  datatype Outcome = Outcome(state: State, records: seq<Record>, status: Status)

  /** The step a run stands on, if any. */
  predicate HasStep(doc: seq<Step>, s: State) {
    !s.completed && s.current < |doc|
  }

  function Pass(doc: seq<Step>, s: State): State {
    State(s.current + 1, false, s.current + 1 >= |doc|)
  }

  function Advance(doc: seq<Step>, s: State): Outcome {
    if !HasStep(doc, s) then Outcome(s.(completed := true), [], Done)
    else
      var step := doc[s.current];
      if step.requiresApproval && !s.waiting
      then Outcome(s.(waiting := true), [Record(ApprovalRequired, step.name)], ApprovalPending)
      else Outcome(Pass(doc, s), [Record(StepCompleted, step.name)], Done)
  }

  function Approve(doc: seq<Step>, s: State): Outcome {
    if !HasStep(doc, s) || !s.waiting then Outcome(s, [], Refused)
    else Outcome(Pass(doc, s), [Record(ManualApproved, doc[s.current].name)], Done)
  }

  class Run {
    var current: nat
    var waiting: bool
    var completed: bool

    function View(): State
      reads this
    {
      State(current, waiting, completed)
    }

    constructor ()
      ensures View() == START
    {
      current, waiting, completed := 0, false, false;
    }

    method AdvanceRun(doc: seq<Step>) returns (records: seq<Record>, status: Status)
      modifies this
      ensures Outcome(View(), records, status) == Advance(doc, old(View()))
    {
      if completed || current >= |doc| {
        completed := true;
        return [], Done;
      }
      var step := doc[current];
      if step.requiresApproval && !waiting {
        waiting := true;
        return [Record(ApprovalRequired, step.name)], ApprovalPending;
      }
      records := [Record(StepCompleted, step.name)];
      waiting := false;
      current := current + 1;
      completed := current >= |doc|;
      return records, Done;
    }

    method ApproveRun(doc: seq<Step>) returns (records: seq<Record>, status: Status)
      modifies this
      ensures Outcome(View(), records, status) == Approve(doc, old(View()))
    {
      if completed || current >= |doc| || !waiting {
        return [], Refused;
      }
      records := [Record(ManualApproved, doc[current].name)];
      waiting := false;
      current := current + 1;
      completed := current >= |doc|;
      return records, Done;
    }
  }

  // ---- Runs ------------------------------------------------------------------------------------

  datatype Call = AdvanceCall | ApproveCall

  datatype World = World(state: State, audit: seq<Record>)

  function After(doc: seq<Step>, calls: seq<Call>): World
    decreases |calls|
  {
    if calls == [] then World(START, [])
    else
      var w := After(doc, calls[..|calls| - 1]);
      var o := if calls[|calls| - 1].AdvanceCall? then Advance(doc, w.state) else Approve(doc, w.state);
      World(o.state, w.audit + o.records)
  }

  // ---- The grammar of the audit trail ----------------------------------------------------------

  /** How the passed steps were closed: true for a manual approval. */
  type Closings = seq<bool>

  predicate Fitting(doc: seq<Step>, closings: Closings, waiting: bool) {
    && |closings| <= |doc|
    && (forall k :: 0 <= k < |closings| && closings[k] ==> doc[k].requiresApproval)
    && (waiting ==> |closings| < |doc| && doc[|closings|].requiresApproval)
  }

  function Closed(step: Step, manually: bool): seq<Record> {
    (if step.requiresApproval then [Record(ApprovalRequired, step.name)] else [])
    + [Record(if manually then ManualApproved else StepCompleted, step.name)]
  }

  /** One closed entry a passed step, in document order, and a trailing request while waiting. */
  function Trail(doc: seq<Step>, closings: Closings, waiting: bool): seq<Record>
    requires Fitting(doc, closings, waiting)
    decreases |closings|
  {
    if closings == [] then
      if waiting then [Record(ApprovalRequired, doc[0].name)] else []
    else Closed(doc[0], closings[0]) + Trail(doc[1..], closings[1..], waiting)
  }

  lemma {:induction false} TrailPush(doc: seq<Step>, closings: Closings, manually: bool)
    requires |closings| < |doc| && Fitting(doc, closings, doc[|closings|].requiresApproval)
    requires manually ==> doc[|closings|].requiresApproval
    ensures Fitting(doc, closings + [manually], false)
    ensures Trail(doc, closings + [manually], false)
            == Trail(doc, closings, doc[|closings|].requiresApproval)
               + [Record(if manually then ManualApproved else StepCompleted, doc[|closings|].name)]
    decreases |closings|
  {
    if closings == [] {
      assert Trail(doc[1..], [manually][1..], false) == [];
    } else {
      var later := closings[1..];
      assert (closings + [manually])[1..] == later + [manually];
      assert doc[1..][|later|] == doc[|closings|];
      TrailPush(doc[1..], later, manually);
    }
  }

  lemma {:induction false} TrailRequest(doc: seq<Step>, closings: Closings)
    requires |closings| < |doc| && Fitting(doc, closings, true)
    ensures Trail(doc, closings, true)
            == Trail(doc, closings, false) + [Record(ApprovalRequired, doc[|closings|].name)]
    decreases |closings|
  {
    if closings != [] {
      assert doc[1..][|closings[1..]|] == doc[|closings|];
      TrailRequest(doc[1..], closings[1..]);
    }
  }

  /** Every passed step that requires approval was approved by hand. */
  predicate AllApproved(doc: seq<Step>, closings: Closings)
    requires |closings| <= |doc|
  {
    forall k :: 0 <= k < |closings| && doc[k].requiresApproval ==> closings[k]
  }

  /** While the run waits, nothing but an approval is called. */
  ghost predicate WaitsForApproval(doc: seq<Step>, calls: seq<Call>) {
    forall i :: 0 <= i < |calls| && After(doc, calls[..i]).state.waiting ==> calls[i].ApproveCall?
  }

  lemma WaitsLast(doc: seq<Step>, calls: seq<Call>)
    requires calls != []
    ensures var n := |calls| - 1;
            WaitsForApproval(doc, calls) <==>
              WaitsForApproval(doc, calls[..n]) && (After(doc, calls[..n]).state.waiting ==> calls[n].ApproveCall?)
  {
    hide After;
    var n := |calls| - 1;
    assert forall i :: 0 <= i < n ==> calls[..n][..i] == calls[..i] && calls[..n][i] == calls[i];
  }

  lemma ApprovedPush(doc: seq<Step>, closings: Closings, manually: bool)
    requires |closings| < |doc|
    ensures AllApproved(doc, closings + [manually]) <==>
              AllApproved(doc, closings) && (doc[|closings|].requiresApproval ==> manually)
  {
    var more := closings + [manually];
    assert more[|closings|] == manually && forall k :: 0 <= k < |closings| ==> more[k] == closings[k];
  }

  /** In every run the audit trail is the trail of some closings, as many as the step counter says,
      and it ends on a request iff the run is waiting; a completed run has passed every step. The
      steps that require approval were all approved by hand exactly when no advance was called while
      the run waited. */
  lemma {:induction false} AuditFollowsGrammar(doc: seq<Step>, calls: seq<Call>) returns (closings: Closings)
    ensures var w := After(doc, calls);
            && |closings| == w.state.current && Fitting(doc, closings, w.state.waiting)
            && w.audit == Trail(doc, closings, w.state.waiting)
            && (w.state.completed ==> w.state.current == |doc|)
            && (w.state.current == |doc| > 0 ==> w.state.completed)
            && (AllApproved(doc, closings) <==> WaitsForApproval(doc, calls))
    decreases |calls|
  {
    if calls == [] {
      closings := [];
    } else {
      hide AllApproved, WaitsForApproval, Trail;
      WaitsLast(doc, calls);
      var w := After(doc, calls[..|calls| - 1]);
      var call := calls[|calls| - 1];
      closings := AuditFollowsGrammar(doc, calls[..|calls| - 1]);
      if HasStep(doc, w.state) {
        var step := doc[w.state.current];
        if w.state.waiting {
          TrailPush(doc, closings, call.ApproveCall?);
          ApprovedPush(doc, closings, call.ApproveCall?);
          closings := closings + [call.ApproveCall?];
        } else if call.AdvanceCall? && step.requiresApproval {
          TrailRequest(doc, closings);
        } else if call.AdvanceCall? {
          TrailPush(doc, closings, false);
          ApprovedPush(doc, closings, false);
          closings := closings + [false];
        }
      }
    }
  }

  /** The trail tells how each step was closed and whether the run waits: two runs of one document
      with the same trail are in the same place. */
  lemma {:induction false} TrailDeterminesRun(doc: seq<Step>, a: Closings, waitingA: bool, b: Closings, waitingB: bool)
    requires Fitting(doc, a, waitingA) && Fitting(doc, b, waitingB)
    requires Trail(doc, a, waitingA) == Trail(doc, b, waitingB)
    ensures a == b && waitingA == waitingB
    decreases |a| + |b|
  {
    var ta, tb := Trail(doc, a, waitingA), Trail(doc, b, waitingB);
    if a != [] && b != [] {
      var n := |Closed(doc[0], a[0])|;
      assert ta[n - 1] == Closed(doc[0], a[0])[n - 1] && tb[n - 1] == Closed(doc[0], b[0])[n - 1];
      assert ta[n..] == Trail(doc[1..], a[1..], waitingA) && tb[n..] == Trail(doc[1..], b[1..], waitingB);
      TrailDeterminesRun(doc[1..], a[1..], waitingA, b[1..], waitingB);
      assert a == [a[0]] + a[1..] && b == [b[0]] + b[1..];
    }
  }

  /** However a run's trail is read, it shows every approval step approved by hand exactly when no
      advance was called while the run waited. */
  lemma ApprovedIff(doc: seq<Step>, calls: seq<Call>, closings: Closings, waiting: bool)
    requires Fitting(doc, closings, waiting) && After(doc, calls).audit == Trail(doc, closings, waiting)
    ensures AllApproved(doc, closings) <==> WaitsForApproval(doc, calls)
  {
    hide After, Trail, AllApproved, WaitsForApproval;
    var own := AuditFollowsGrammar(doc, calls);
    TrailDeterminesRun(doc, own, After(doc, calls).state.waiting, closings, waiting);
  }

  /** Two advances pass a step that requires approval, without any. */
  lemma SecondAdvancePasses(name: string)
    ensures After([Step(name, true)], [AdvanceCall, AdvanceCall])
         == World(State(1, false, true), [Record(ApprovalRequired, name), Record(StepCompleted, name)])
    ensures !WaitsForApproval([Step(name, true)], [AdvanceCall, AdvanceCall])
  {
    var doc, calls := [Step(name, true)], [AdvanceCall, AdvanceCall];
    assert calls[..1] == [AdvanceCall] && calls[..1][..0] == [];
    assert After(doc, calls[..1]) == World(State(0, true, false), [Record(ApprovalRequired, name)]);
    assert calls[1].AdvanceCall?;
  }

  /** Closing entries counted in a trail. */
  function CountClosings(audit: seq<Record>): nat {
    if audit == [] then 0 else (if audit[0].kind.ApprovalRequired? then 0 else 1) + CountClosings(audit[1..])
  }

  lemma {:induction false} CountConcat(a: seq<Record>, b: seq<Record>)
    ensures CountClosings(a + b) == CountClosings(a) + CountClosings(b)
  {
    if a == [] {
      assert a + b == b;
    } else {
      assert (a + b)[1..] == a[1..] + b;
      CountConcat(a[1..], b);
    }
  }

  /** In every run the step counter is the number of closing entries in the trail. */
  lemma {:induction false} CounterCountsClosings(doc: seq<Step>, calls: seq<Call>)
    ensures After(doc, calls).state.current == CountClosings(After(doc, calls).audit) <= |doc|
    decreases |calls|
  {
    if calls != [] {
      var w := After(doc, calls[..|calls| - 1]);
      CounterCountsClosings(doc, calls[..|calls| - 1]);
      var o := if calls[|calls| - 1].AdvanceCall? then Advance(doc, w.state) else Approve(doc, w.state);
      CountConcat(w.audit, o.records);
      assert o.records != [] ==> o.records[1..] == [];
    }
  }

  /** What a call reports: an advance is pending exactly when it has asked for an approval and nothing
      else; an approval is refused exactly when it records nothing and changes nothing. */
  lemma StatusTells(doc: seq<Step>, s: State)
    ensures var o := Advance(doc, s);
            && o.status != Refused
            && (o.status == ApprovalPending
                <==> !s.completed && s.current < |doc| && doc[s.current].requiresApproval && !s.waiting)
            && (o.status == ApprovalPending ==> o.state == s.(waiting := true))
            && (o.records == [] ==> o.state == s.(completed := true))
    ensures var o := Approve(doc, s);
            && o.status != ApprovalPending
            && (o.status == Refused <==> !s.waiting || s.completed || s.current >= |doc|)
            && (o.status == Refused <==> o.records == [])
            && (o.status == Refused ==> o.state == s)
  {
  }

  /** An advance past the last step, or on a document without steps, completes the run. */
  lemma AdvanceCompletes(doc: seq<Step>, s: State)
    requires s.current >= |doc|
    ensures Advance(doc, s).state.completed && Advance(doc, s).state.current == s.current
  {
  }
}
