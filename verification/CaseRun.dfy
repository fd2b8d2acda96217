/** The driver's own record of its tool decisions, and the file it keeps of it. */
module CaseRun {
  import opened Wrappers
  import opened ToolDecisions

  lemma {:induction false} UpsertAt(journal: Journal, i: nat, e: Entry)
    requires i < |journal| && journal[i].id == e.id
    requires forall k | 0 <= k < i :: journal[k].id != e.id
    ensures Upsert(journal, e) == journal[i := e]
  {
    if i > 0 {
      UpsertAt(journal[1..], i - 1, e);
    }
  }

  lemma {:induction false} UpsertAtEnd(journal: Journal, e: Entry)
    requires forall k | 0 <= k < |journal| :: journal[k].id != e.id
    ensures Upsert(journal, e) == journal + [e]
  {
    if journal != [] {
      UpsertAtEnd(journal[1..], e);
    }
  }

  /** One more entry reconciled, as long as none has failed. */
  lemma {:induction false} ReconciledNext(t: Tools, journal: Journal, rows: Rows, i: nat)
    requires i < |journal| && Reconciled(t, journal, rows, i).1.None?
    ensures var before := Reconciled(t, journal, rows, i).0;
      var next := Recover(t, journal[i], rows);
      && |before| == |journal| && before[i] == journal[i]
      && Reconciled(t, journal, rows, i + 1) ==
         if next.Err? then (before, Some(next.error)) else (before[i := next.value], None)
  {
    if i == 0 {
      var next := Recover(t, journal[0], rows);
      assert Reconciled(t, journal[1..], rows, 0) == (journal[1..], None);
      if next.Ok? { assert journal[0 := next.value] == [next.value] + journal[1..]; }
    } else {
      ReconciledNext(t, journal[1..], rows, i - 1);
      var first, later := Recover(t, journal[0], rows).value, Reconciled(t, journal[1..], rows, i - 1).0;
      var next := Recover(t, journal[i], rows);
      if next.Ok? { assert ([first] + later)[i := next.value] == [first] + later[i - 1 := next.value]; }
    }
  }

  /** A failure ends the reconciliation. */
  lemma {:induction false} FailureIsLast(t: Tools, journal: Journal, rows: Rows, i: nat, upTo: nat)
    requires i <= upTo && Reconciled(t, journal, rows, i).1.Some?
    ensures Reconciled(t, journal, rows, upTo) == Reconciled(t, journal, rows, i)
  {
    if Recover(t, journal[0], rows).Ok? {
      FailureIsLast(t, journal[1..], rows, i - 1, upTo - 1);
    }
  }

  /** What follows the planning of a decision. */
  function Finished(t: Tools, s: System, outcome: Outcome): System {
    Step(t, Step(t, s, Submit(outcome)), Record)
  }

  lemma NothingToFinish(t: Tools, s: System, outcome: Outcome)
    requires s.process.None? || s.process.value.phase.Idle?
    ensures Finished(t, s, outcome) == s
  {
  }

  lemma IntentIsFinished(t: Tools, s: System, outcome: Outcome)
    requires s.process.Some? && s.process.value.phase.Intending?
    ensures var p := s.process.value; var e := p.phase.intent;
      var sent := s.(submissions := s.submissions
                       + [Submission(e.id, e.call, e.requestId, e.choice, e.text, p.phase.workplace, s.journal)]);
      var receipt := e.(acknowledged := true, stage := Acknowledged);
      Finished(t, s, outcome) ==
      if !CanAccept(t, s.rows, e) || outcome.Refused? || (outcome.Lost? && !outcome.recorded) then
        sent.(process := None)
      else if outcome.Lost? then sent.(rows := Decided(t, s.rows, e), process := None)
      else sent.(journal := Upsert(s.journal, receipt), rows := Decided(t, s.rows, e),
                 process := Some(p.(seen := p.seen + {e.id}, phase := Idle)))
  {
  }

  class CaseRun {
    /** `tool_decisions`, and what of it is on disk. */
    var decisions: Journal
    var saved: Journal
    /** The checkpoints that are not looked at again, and the pending ones as they were last read. */
    var seen: set<Id>
    var snapshot: Rows
    /** What has been submitted so far. */
    ghost var sent: seq<Submission>

    constructor (saved: Journal)
      ensures decisions == this.saved == saved
      ensures seen == AcknowledgedIds(saved) && snapshot == map[] && sent == []
    {
      decisions, this.saved := saved, saved;
      seen, snapshot, sent := AcknowledgedIds(saved), map[], [];
    }

    /** The driver's part of a state of the run model, while it is between two decisions. */
    ghost function State(rows: Rows, w: Workplace): System
      reads this
    {
      System(decisions, rows, w, Some(Process(seen, snapshot, Idle)), sent)
    }

    /** `state_changed` */
    method Save()
      modifies this`saved
      ensures saved == decisions
    {
      saved := decisions;
    }

    /** `upsert_tool_decision` */
    method UpsertToolDecision(e: Entry)
      modifies this`decisions, this`saved
      ensures decisions == saved == Upsert(old(decisions), e)
    {
      for i := 0 to |decisions|
        invariant decisions == old(decisions)
        invariant forall k | 0 <= k < i :: decisions[k].id != e.id
      {
        if decisions[i].id == e.id {
          UpsertAt(decisions, i, e);
          decisions := decisions[i := e];
          Save();
          return;
        }
      }
      UpsertAtEnd(decisions, e);
      decisions := decisions + [e];
      Save();
    }

    /** The intent is on disk before it is submitted; a failed check leaves everything as it was. */
    method PlanDecision(t: Tools, cp: Checkpoint, found: Lookup, w: Workplace) returns (r: Result<Vetted, Failure>)
      modifies this`decisions, this`saved
      ensures r == Vet(t, old(decisions), cp, found, w)
      ensures r.Ok? ==> decisions == saved == Upsert(old(decisions), r.value.e)
      ensures r.Err? ==> decisions == old(decisions) && saved == old(saved)
    {
      r := Vet(t, decisions, cp, found, w);
      if r.Ok? {
        UpsertToolDecision(r.value.e);
      }
    }

    /** The pending checkpoints of the case, as the store holds them now. */
    method FetchPending(t: Tools, rows: Rows, w: Workplace)
      modifies this`snapshot
      ensures State(rows, w) == Step(t, old(State(rows, w)), Fetch)
    {
      snapshot := PendingIn(rows);
    }

    /** Submits the intent and, when it is acknowledged, journals the receipt; `alive` unless the call raises. */
    method SubmitIntent(t: Tools, e: Entry, w: Workplace, rows: Rows, outcome: Outcome)
      returns (after: Rows, alive: bool)
      requires saved == decisions
      modifies this`decisions, this`saved, this`seen, this`sent
      ensures var planned := old(State(rows, w)).(process := Some(Process(old(seen), snapshot, Intending(e, w))));
        IsLeft(Finished(t, planned, outcome), after, alive, w)
      ensures saved == decisions
    {
      after, alive := rows, false;
      IntentIsFinished(t, State(rows, w).(process := Some(Process(seen, snapshot, Intending(e, w)))), outcome);
      sent := sent + [Submission(e.id, e.call, e.requestId, e.choice, e.text, w, decisions)];
      if !CanAccept(t, rows, e) || outcome.Refused? || (outcome.Lost? && !outcome.recorded) {
        return;
      }
      after := Decided(t, rows, e);
      if outcome.Accepted? {
        UpsertToolDecision(e.(acknowledged := true, stage := Acknowledged));
        seen := seen + {e.id};
        alive := true;
      }
    }

    /** The fields, with the store `rows`, are the state `end`, in which a driver that raised is gone. */
    ghost predicate IsLeft(end: System, rows: Rows, alive: bool, w: Workplace)
      reads this
    {
      end == if alive then State(rows, w) else State(rows, w).(process := None)
    }

    /**
    One turn of the loop over the pending checkpoints: `_approve_tool_checkpoint` and the upsert of what it
    returns.  `rows` is the store when the submission arrives, and `outcome` how the submission ends.  The
    turn does what planning, submitting and recording do in the run model.
    */
    method DecideCheckpoint(t: Tools, id: Id, found: Lookup, w: Workplace, rows: Rows, outcome: Outcome)
      returns (after: Rows, alive: bool)
      requires saved == decisions && id in snapshot && id !in seen
      modifies this`decisions, this`saved, this`seen, this`sent
      ensures IsLeft(Finished(t, AfterPlan(t, old(State(rows, w)), id, found), outcome), after, alive, w)
      ensures saved == decisions
    {
      ghost var planned := AfterPlan(t, State(rows, w), id, found);
      var vetted := PlanDecision(t, CheckpointOf(id, snapshot[id]), found, w);
      if vetted.Ok? && vetted.value.Intent? {
        after, alive := SubmitIntent(t, vetted.value.e, w, rows, outcome);
        return;
      }
      NothingToFinish(t, planned, outcome);
      after, alive := rows, vetted.Ok?;
      if vetted.Ok? {
        seen := seen + {id};
      }
    }

    /** `_reconcile_planned_tool_decisions`; every recovered intent is saved before the next one is looked at. */
    method ReconcilePlanned(t: Tools, rows: Rows) returns (failure: Option<Failure>)
      requires saved == decisions
      modifies this`decisions, this`saved
      ensures (decisions, failure) == Reconciled(t, old(decisions), rows, |old(decisions)|)
      ensures saved == decisions
    {
      ghost var before := decisions;
      for i := 0 to |decisions|
        invariant |decisions| == |before| && saved == decisions
        invariant Reconciled(t, before, rows, i) == (decisions, None)
      {
        ReconciledNext(t, before, rows, i);
        var recovered := Recover(t, decisions[i], rows);
        if recovered.Err? {
          FailureIsLast(t, before, rows, i + 1, |before|);
          return Some(recovered.error);
        }
        assert recovered.value == decisions[i] ==> decisions[i := recovered.value] == decisions;
        if recovered.value != decisions[i] {
          decisions := decisions[i := recovered.value];
          Save();
        }
      }
      return None;
    }
  }
}
