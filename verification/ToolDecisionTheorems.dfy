/** What holds of the tool decisions in every run, across any number of crashes and resumes. */
module ToolDecisionTheorems {
  import opened Wrappers
  import opened ToolDecisions

  // --- upserting ---

  ghost predicate DistinctIds(journal: Journal) {
    forall i, j | 0 <= i < j < |journal| :: journal[i].id != journal[j].id
  }

  lemma {:induction false} FindIsThere(journal: Journal, id: Id)
    ensures Find(journal, id).Some? ==> Find(journal, id).value in journal && Find(journal, id).value.id == id
    ensures Find(journal, id).None? <==> forall e | e in journal :: e.id != id
  {
    if journal != [] {
      FindIsThere(journal[1..], id);
      assert journal == [journal[0]] + journal[1..];
    }
  }

  lemma {:induction false} FindAfterUpsert(journal: Journal, e: Entry, id: Id)
    ensures Find(Upsert(journal, e), id) == if id == e.id then Some(e) else Find(journal, id)
  {
    if journal != [] && journal[0].id != e.id {
      FindAfterUpsert(journal[1..], e, id);
      assert Upsert(journal, e)[1..] == Upsert(journal[1..], e);
    } else if journal != [] {
      assert Upsert(journal, e)[1..] == journal[1..];
    }
  }

  lemma {:induction false} UpsertMembers(journal: Journal, e: Entry)
    ensures forall x | x in Upsert(journal, e) :: x == e || x in journal
  {
    if journal != [] && journal[0].id != e.id {
      UpsertMembers(journal[1..], e);
    }
  }

  lemma {:induction false} UpsertStaysDistinct(journal: Journal, e: Entry)
    requires DistinctIds(journal)
    ensures DistinctIds(Upsert(journal, e))
  {
    if journal != [] && journal[0].id != e.id {
      UpsertStaysDistinct(journal[1..], e);
      UpsertMembers(journal[1..], e);
      var later := Upsert(journal[1..], e);
      forall i | 0 <= i < |later| ensures later[i].id != journal[0].id {
        assert later[i] in later;
      }
    }
  }

  lemma {:induction false} FindDistinct(journal: Journal, e: Entry)
    requires DistinctIds(journal) && e in journal
    ensures Find(journal, e.id) == Some(e)
  {
    if journal[0] != e {
      FindDistinct(journal[1..], e);
    }
  }

  // --- the bounds on denials ---

  lemma {:induction false} RejectedElsewhereOfStranger(journal: Journal, id: Id)
    requires forall e | e in journal :: e.id != id
    ensures RejectedElsewhere(journal, id) == Rejected(journal)
  {
    if journal != [] {
      assert journal[0] in journal;
      RejectedElsewhereOfStranger(journal[1..], id);
    }
  }

  function Own(present: bool, e: Entry): nat {
    if present && e.choice == Deny then 1 else 0
  }

  function OwnRepeat(e: Entry, signature: string): nat {
    if e.choice == Deny && e.signature == signature then 1 else 0
  }

  /** The denials after an upsert are those of the other checkpoints and, perhaps, the new entry. */
  lemma {:induction false} RejectedAfterUpsert(journal: Journal, e: Entry, signature: string)
    requires DistinctIds(journal)
    ensures |Rejected(Upsert(journal, e))| == |RejectedElsewhere(journal, e.id)| + Own(true, e)
    ensures Repeats(Rejected(Upsert(journal, e)), signature) ==
            Repeats(RejectedElsewhere(journal, e.id), signature) + OwnRepeat(e, signature)
  {
    if journal == [] {
    } else if journal[0].id == e.id {
      RejectedElsewhereOfStranger(journal[1..], e.id);
      assert Upsert(journal, e)[1..] == journal[1..];
    } else {
      RejectedAfterUpsert(journal[1..], e, signature);
      assert Upsert(journal, e)[1..] == Upsert(journal[1..], e);
    }
  }

  lemma {:induction false} ElsewhereIsFewer(journal: Journal, id: Id, signature: string)
    ensures |RejectedElsewhere(journal, id)| <= |Rejected(journal)|
    ensures Repeats(RejectedElsewhere(journal, id), signature) <= Repeats(Rejected(journal), signature)
  {
    if journal != [] {
      ElsewhereIsFewer(journal[1..], id, signature);
    }
  }

  ghost predicate Bounded(journal: Journal) {
    |Rejected(journal)| <= MAX_DENIALS && forall signature :: Repeats(Rejected(journal), signature) <= MAX_REPEATS
  }

  /** An entry that keeps the choice and the signature of the one it replaces. */
  predicate SameKind(e: Entry, p: Entry) {
    e.id == p.id && e.choice == p.choice && e.call == p.call && e.signature == p.signature
  }

  lemma {:induction false} UpdateKeepsRejected(journal: Journal, e: Entry, signature: string)
    requires Find(journal, e.id).Some? && SameKind(e, Find(journal, e.id).value)
    ensures |Rejected(Upsert(journal, e))| == |Rejected(journal)|
    ensures Repeats(Rejected(Upsert(journal, e)), signature) == Repeats(Rejected(journal), signature)
  {
    if journal[0].id == e.id {
      assert Upsert(journal, e)[1..] == journal[1..];
    } else {
      UpdateKeepsRejected(journal[1..], e, signature);
      assert Upsert(journal, e)[1..] == Upsert(journal[1..], e);
    }
  }

  lemma UpdateStaysBounded(journal: Journal, e: Entry)
    requires Bounded(journal) && Find(journal, e.id).Some? && SameKind(e, Find(journal, e.id).value)
    ensures Bounded(Upsert(journal, e))
  {
    forall signature ensures Repeats(Rejected(Upsert(journal, e)), signature) <= MAX_REPEATS {
      UpdateKeepsRejected(journal, e, signature);
    }
    UpdateKeepsRejected(journal, e, "");
  }

  /** An intent that passes the checks keeps the bounds. */
  lemma IntentStaysBounded(t: Tools, journal: Journal, cp: Checkpoint, v: Verdict)
    requires DistinctIds(journal) && Bounded(journal)
    requires VetDecision(t, journal, cp, v).Ok? && VetDecision(t, journal, cp, v).value.Intent?
    ensures Bounded(Upsert(journal, IntentOf(t, cp, v)))
  {
    var e := IntentOf(t, cp, v);
    forall signature ensures Repeats(Rejected(Upsert(journal, e)), signature) <= MAX_REPEATS {
      RejectedAfterUpsert(journal, e, signature);
      ElsewhereIsFewer(journal, e.id, signature);
    }
    RejectedAfterUpsert(journal, e, "");
    ElsewhereIsFewer(journal, e.id, "");
  }

  // --- reconciling ---

  /** Reconciling replaces entries one by one, each by itself or by its recovered form. */
  lemma {:induction false} ReconciledIsPointwise(t: Tools, journal: Journal, rows: Rows, upTo: nat)
    ensures var after := Reconciled(t, journal, rows, upTo).0;
      && |after| == |journal|
      && forall i | 0 <= i < |journal| ::
           after[i] == journal[i] || (Recover(t, journal[i], rows) == Ok(after[i]) && after[i] == Recovered(journal[i]))
  {
    if journal != [] && upTo > 0 && Recover(t, journal[0], rows).Ok? {
      ReconciledIsPointwise(t, journal[1..], rows, upTo - 1);
    }
  }

  lemma {:induction false} SameKindsSameRejected(a: Journal, b: Journal, signature: string)
    requires |a| == |b| && forall i | 0 <= i < |a| :: SameKind(a[i], b[i])
    ensures |Rejected(a)| == |Rejected(b)| && Repeats(Rejected(a), signature) == Repeats(Rejected(b), signature)
  {
    if a != [] {
      SameKindsSameRejected(a[1..], b[1..], signature);
    }
  }

  lemma {:induction false} FindPointwise(a: Journal, b: Journal, id: Id) returns (i: nat)
    requires |a| == |b| && (forall k | 0 <= k < |a| :: a[k].id == b[k].id)
    ensures Find(a, id).Some? <==> Find(b, id).Some?
    ensures Find(a, id).Some? ==> i < |a| && Find(a, id).value == a[i] && Find(b, id).value == b[i]
  {
    if a == [] || a[0].id == id {
      i := 0;
    } else {
      var k := FindPointwise(a[1..], b[1..], id);
      i := k + 1;
    }
  }

  // --- the invariant ---

  predicate HasDecision(rows: Rows, id: Id, d: Durable) {
    id in rows && rows[id].decision == Some(d)
  }

  /** An acknowledged entry is the engine's durable decision. */
  ghost predicate EntryIsSound(t: Tools, rows: Rows, e: Entry) {
    && e.requestId == t.requestId(e.id, e.choice)
    && (e.acknowledged ==> HasDecision(rows, e.id, DecisionOf(t, e)))
  }

  ghost predicate JournalIsSound(t: Tools, journal: Journal, rows: Rows) {
    DistinctIds(journal) && Bounded(journal) && forall e | e in journal :: EntryIsSound(t, rows, e)
  }

  /** Option and text are what the validator's answer in that workplace calls for. */
  predicate Answers(t: Tools, w: Workplace, call: Call, choice: Choice, text: string) {
    choice == ChoiceOf(t.answer(w, call)) && text == TextOf(t.answer(w, call))
  }

  ghost predicate PhaseIsSound(t: Tools, journal: Journal, rows: Rows, phase: Phase) {
    match phase
    case Idle => true
    case Intending(e, w) => Find(journal, e.id) == Some(e) && !e.acknowledged && Answers(t, w, e.call, e.choice, e.text)
    case Answered(e) =>
      && Find(journal, e.id).Some?
      && !Find(journal, e.id).value.acknowledged
      && Find(journal, e.id).value.(acknowledged := true, stage := Acknowledged) == e
      && HasDecision(rows, e.id, DecisionOf(t, e))
  }

  /**
  A submission is the intent that the journal held, unacknowledged, when it was made; and it says what the
  validator answers in the workplace in which that intent was planned.
  */
  ghost predicate WasIntended(t: Tools, sub: Submission) {
    && Find(sub.journal, sub.id).Some?
    && var e := Find(sub.journal, sub.id).value;
       && !e.acknowledged
       && sub.call == e.call
       && sub.requestId == e.requestId == t.requestId(sub.id, sub.choice)
       && sub.choice == e.choice && sub.text == e.text
       && Answers(t, sub.workplace, sub.call, sub.choice, sub.text)
  }

  /** The journal still holds the checkpoint, with the tool call and the option that were submitted. */
  ghost predicate StillChosen(journal: Journal, sub: Submission) {
    && Find(journal, sub.id).Some?
    && Find(journal, sub.id).value.choice == sub.choice
    && SameCall(Find(journal, sub.id).value.call, sub.call)
  }

  ghost predicate SubmissionsAreSound(t: Tools, journal: Journal, submissions: seq<Submission>) {
    forall sub | sub in submissions :: WasIntended(t, sub) && StillChosen(journal, sub)
  }

  ghost predicate Sound(t: Tools, s: System) {
    && JournalIsSound(t, s.journal, s.rows)
    && (s.process.Some? ==> PhaseIsSound(t, s.journal, s.rows, s.process.value.phase))
    && SubmissionsAreSound(t, s.journal, s.submissions)
  }

  /** The same decision, acknowledged if it was before. */
  predicate Continues(p: Entry, e: Entry) {
    && e.choice == p.choice && SameCall(e.call, p.call)
    && (p.acknowledged ==> e.acknowledged && e.requestId == p.requestId && e.text == p.text)
  }

  /** No decision is dropped or changes its tool call or its option, and an acknowledged one does not change at all. */
  ghost predicate Keeps(before: Journal, after: Journal) {
    forall id | Find(before, id).Some? :: Find(after, id).Some? && Continues(Find(before, id).value, Find(after, id).value)
  }

  lemma UpsertKeeps(journal: Journal, e: Entry)
    requires Find(journal, e.id).Some? ==> Continues(Find(journal, e.id).value, e)
    ensures Keeps(journal, Upsert(journal, e))
  {
    forall id | Find(journal, id).Some?
      ensures Find(Upsert(journal, e), id).Some? && Continues(Find(journal, id).value, Find(Upsert(journal, e), id).value)
    {
      FindAfterUpsert(journal, e, id);
    }
  }

  lemma KeepsSubmissions(t: Tools, before: Journal, after: Journal, submissions: seq<Submission>)
    requires SubmissionsAreSound(t, before, submissions) && Keeps(before, after)
    ensures SubmissionsAreSound(t, after, submissions)
  {
  }

  lemma UpsertIsSound(t: Tools, journal: Journal, rows: Rows, e: Entry)
    requires JournalIsSound(t, journal, rows) && EntryIsSound(t, rows, e) && Bounded(Upsert(journal, e))
    ensures JournalIsSound(t, Upsert(journal, e), rows)
  {
    UpsertStaysDistinct(journal, e);
    UpsertMembers(journal, e);
  }

  /** An update of an entry that keeps its kind. */
  lemma UpdateIsSound(t: Tools, journal: Journal, rows: Rows, e: Entry)
    requires JournalIsSound(t, journal, rows) && EntryIsSound(t, rows, e)
    requires Find(journal, e.id).Some? && SameKind(e, Find(journal, e.id).value) && Continues(Find(journal, e.id).value, e)
    ensures JournalIsSound(t, Upsert(journal, e), rows) && Keeps(journal, Upsert(journal, e))
  {
    UpdateStaysBounded(journal, e);
    UpsertIsSound(t, journal, rows, e);
    UpsertKeeps(journal, e);
  }

  lemma RecoverIsSound(t: Tools, rows: Rows, e: Entry, r: Entry)
    requires EntryIsSound(t, rows, e) && Recover(t, e, rows) == Ok(r)
    ensures EntryIsSound(t, rows, r) && SameKind(r, e) && Continues(e, r)
  {
  }

  lemma ReconcileIsSound(t: Tools, journal: Journal, rows: Rows, upTo: nat)
    requires JournalIsSound(t, journal, rows)
    ensures var after := Reconciled(t, journal, rows, upTo).0;
      JournalIsSound(t, after, rows) && Keeps(journal, after)
  {
    var after := Reconciled(t, journal, rows, upTo).0;
    ReconciledIsPointwise(t, journal, rows, upTo);
    forall i | 0 <= i < |journal|
      ensures SameKind(after[i], journal[i]) && Continues(journal[i], after[i]) && EntryIsSound(t, rows, after[i])
    {
      assert journal[i] in journal;
      if after[i] != journal[i] { RecoverIsSound(t, rows, journal[i], after[i]); }
    }
    forall signature ensures Repeats(Rejected(after), signature) <= MAX_REPEATS {
      SameKindsSameRejected(after, journal, signature);
    }
    SameKindsSameRejected(after, journal, "");
    forall id | Find(journal, id).Some?
      ensures Find(after, id).Some? && Continues(Find(journal, id).value, Find(after, id).value)
    {
      var i := FindPointwise(after, journal, id);
    }
  }

  lemma VettedIsSound(t: Tools, journal: Journal, rows: Rows, cp: Checkpoint, v: Verdict)
    requires JournalIsSound(t, journal, rows) && VetDecision(t, journal, cp, v).Ok?
    ensures var e := VetDecision(t, journal, cp, v).value.e;
      JournalIsSound(t, Upsert(journal, e), rows) && Keeps(journal, Upsert(journal, e))
  {
    var vetted := VetDecision(t, journal, cp, v).value;
    FindIsThere(journal, cp.id);
    if vetted.Duplicate? {
      UpdateIsSound(t, journal, rows, vetted.e);
    } else {
      IntentStaysBounded(t, journal, cp, v);
      UpsertIsSound(t, journal, rows, vetted.e);
      UpsertKeeps(journal, vetted.e);
    }
  }

  lemma VetIsVetDecision(t: Tools, journal: Journal, cp: Checkpoint, found: Lookup, w: Workplace)
    requires Vet(t, journal, cp, found, w).Ok?
    ensures Vet(t, journal, cp, found, w) == VetDecision(t, journal, cp, t.answer(w, cp.call))
  {
  }

  lemma PlanIsSound(t: Tools, s: System, id: Id, found: Lookup)
    requires Sound(t, s) && s.process.Some? && CanPlan(s.process.value, id)
    ensures Sound(t, AfterPlan(t, s, id, found)) && Keeps(s.journal, AfterPlan(t, s, id, found).journal)
  {
    hide Vet;
    var cp := CheckpointOf(id, s.process.value.snapshot[id]);
    var vetted := Vet(t, s.journal, cp, found, s.workplace);
    if vetted.Ok? {
      VetIsVetDecision(t, s.journal, cp, found, s.workplace);
      VettedIsSound(t, s.journal, s.rows, cp, t.answer(s.workplace, cp.call));
      FindAfterUpsert(s.journal, vetted.value.e, id);
      KeepsSubmissions(t, s.journal, Upsert(s.journal, vetted.value.e), s.submissions);
    }
  }

  lemma RowsKeepSoundness(t: Tools, s: System, rows: Rows)
    requires Sound(t, s) && KeepsDecisions(s.rows, rows)
    ensures Sound(t, s.(rows := rows))
  {
  }

  lemma DecidedKeepsDecisions(t: Tools, rows: Rows, e: Entry)
    requires CanAccept(t, rows, e)
    ensures KeepsDecisions(rows, Decided(t, rows, e)) && HasDecision(Decided(t, rows, e), e.id, DecisionOf(t, e))
  {
  }

  lemma SubmitIsSound(t: Tools, s: System, outcome: Outcome)
    requires Sound(t, s) && s.process.Some? && s.process.value.phase.Intending?
    ensures Sound(t, AfterSubmit(t, s, outcome))
  {
    var e := s.process.value.phase.intent;
    FindIsThere(s.journal, e.id);
    if CanAccept(t, s.rows, e) {
      DecidedKeepsDecisions(t, s.rows, e);
      RowsKeepSoundness(t, s, Decided(t, s.rows, e));
    }
  }

  lemma RecordIsSound(t: Tools, s: System)
    requires Sound(t, s) && s.process.Some? && s.process.value.phase.Answered?
    ensures Sound(t, Step(t, s, Record)) && Keeps(s.journal, Step(t, s, Record).journal)
  {
    var e := s.process.value.phase.receipt;
    FindIsThere(s.journal, e.id);
    UpdateIsSound(t, s.journal, s.rows, e);
    KeepsSubmissions(t, s.journal, Upsert(s.journal, e), s.submissions);
  }

  lemma ReportIsSound(t: Tools, s: System, id: Id)
    requires Sound(t, s) && IsIdle(s)
    ensures Sound(t, Step(t, s, Report(id))) && Keeps(s.journal, Step(t, s, Report(id)).journal)
  {
    FindIsThere(s.journal, id);
    var e := Find(s.journal, id);
    if e.Some? && e.value.choice == Deny && e.value.acknowledged {
      var reported := e.value.(reported := true);
      UpdateIsSound(t, s.journal, s.rows, reported);
      KeepsSubmissions(t, s.journal, Upsert(s.journal, reported), s.submissions);
    }
  }

  /** Steps that leave the journal alone. */
  predicate IsSilent(a: Action) {
    a.Resume? || a.Crash? || a.Fetch? || a.Submit? || a.Engine? || a.Change?
  }

  lemma SilentStepIsSound(t: Tools, s: System, a: Action)
    requires Sound(t, s) && IsSilent(a)
    ensures Sound(t, Step(t, s, a)) && Step(t, s, a).journal == s.journal
  {
    match a
    case Submit(outcome) => if s.process.Some? && s.process.value.phase.Intending? { SubmitIsSound(t, s, outcome); }
    case Engine(rows) => if KeepsDecisions(s.rows, rows) { RowsKeepSoundness(t, s, rows); }
    case _ =>
  }

  lemma StepIsSound(t: Tools, s: System, a: Action)
    requires Sound(t, s)
    ensures Sound(t, Step(t, s, a)) && Keeps(s.journal, Step(t, s, a).journal)
  {
    if IsSilent(a) {
      SilentStepIsSound(t, s, a);
      return;
    }
    match a
    case Reconcile(upTo) =>
      if IsIdle(s) {
        ReconcileIsSound(t, s.journal, s.rows, upTo);
        KeepsSubmissions(t, s.journal, Reconciled(t, s.journal, s.rows, upTo).0, s.submissions);
      }
    case Plan(id, found) => if s.process.Some? && CanPlan(s.process.value, id) { PlanIsSound(t, s, id, found); }
    case Record => if s.process.Some? && s.process.value.phase.Answered? { RecordIsSound(t, s); }
    case Report(id) => if IsIdle(s) { ReportIsSound(t, s, id); }
    case _ =>
  }

  lemma {:induction false} EveryRunIsSound(t: Tools, w: Workplace, actions: seq<Action>)
    ensures Sound(t, Run(t, w, actions))
  {
    if actions != [] {
      EveryRunIsSound(t, w, actions[..|actions| - 1]);
      StepIsSound(t, Run(t, w, actions[..|actions| - 1]), actions[|actions| - 1]);
    }
  }

  // --- the theorems ---

  /**
  Whatever was submitted was the intent in the journal at that moment, and two submissions for one
  checkpoint carry the same tool call, request id and option.  They carry the same text exactly when the
  validator's answers, in the workplaces in which they were planned, call for the same text.
  */
  lemma SubmissionsAgree(t: Tools, w: Workplace, actions: seq<Action>, i: nat, j: nat)
    requires i < |Run(t, w, actions).submissions| && j < |Run(t, w, actions).submissions|
    ensures var a, b := Run(t, w, actions).submissions[i], Run(t, w, actions).submissions[j];
      && WasIntended(t, a)
      && (a.id == b.id ==>
            && SameCall(a.call, b.call) && a.requestId == b.requestId && a.choice == b.choice
            && (a.text == b.text <==> TextOf(t.answer(a.workplace, a.call)) == TextOf(t.answer(b.workplace, b.call))))
  {
    EveryRunIsSound(t, w, actions);
    var s := Run(t, w, actions);
    assert s.submissions[i] in s.submissions && s.submissions[j] in s.submissions;
  }

  /** The journal never holds more than six denials, nor more than two of one call. */
  lemma DenialsAreBounded(t: Tools, w: Workplace, actions: seq<Action>, signature: string)
    ensures |Rejected(Run(t, w, actions).journal)| <= 6
    ensures Repeats(Rejected(Run(t, w, actions).journal), signature) <= 2
  {
    EveryRunIsSound(t, w, actions);
  }

  /** What the journal calls acknowledged is the engine's durable decision. */
  lemma AcknowledgedIsDurable(t: Tools, w: Workplace, actions: seq<Action>, e: Entry)
    requires e in Run(t, w, actions).journal && e.acknowledged
    ensures e.id in Run(t, w, actions).rows && Run(t, w, actions).rows[e.id].decision == Some(DecisionOf(t, e))
  {
    EveryRunIsSound(t, w, actions);
  }

  /** The submissions for one checkpoint. */
  function SubmissionsFor(submissions: seq<Submission>, id: Id): seq<Submission> {
    if submissions == [] then []
    else
      var before, last := SubmissionsFor(submissions[..|submissions| - 1], id), submissions[|submissions| - 1];
      if last.id == id then before + [last] else before
  }

  predicate IsAcknowledged(journal: Journal, id: Id) {
    Find(journal, id).Some? && Find(journal, id).value.acknowledged
  }

  lemma StepSubmitsNothingAcknowledged(t: Tools, s: System, a: Action, id: Id)
    requires Sound(t, s) && IsAcknowledged(s.journal, id)
    ensures SubmissionsFor(Step(t, s, a).submissions, id) == SubmissionsFor(s.submissions, id)
  {
    if a.Submit? && s.process.Some? && s.process.value.phase.Intending? {
      var e, w := s.process.value.phase.intent, s.process.value.phase.workplace;
      var last := Submission(e.id, e.call, e.requestId, e.choice, e.text, w, s.journal);
      assert Step(t, s, a).submissions == s.submissions + [last];
      assert (s.submissions + [last])[..|s.submissions|] == s.submissions;
    }
  }

  /** Once acknowledged in the journal a decision never changes, and is never submitted again. */
  lemma {:induction false} AcknowledgedIsFinal(t: Tools, w: Workplace, actions: seq<Action>, more: seq<Action>, id: Id)
    requires IsAcknowledged(Run(t, w, actions).journal, id)
    ensures var before, after := Run(t, w, actions), Run(t, w, actions + more);
      && IsAcknowledged(after.journal, id)
      && DecisionOf(t, Find(after.journal, id).value) == DecisionOf(t, Find(before.journal, id).value)
      && SubmissionsFor(after.submissions, id) == SubmissionsFor(before.submissions, id)
    decreases |more|
  {
    if more == [] {
      assert actions + more == actions;
    } else {
      var earlier, last := actions + more[..|more| - 1], more[|more| - 1];
      assert actions + more == earlier + [last] && (actions + more)[..|earlier|] == earlier;
      AcknowledgedIsFinal(t, w, actions, more[..|more| - 1], id);
      EveryRunIsSound(t, w, earlier);
      StepIsSound(t, Run(t, w, earlier), last);
      StepSubmitsNothingAcknowledged(t, Run(t, w, earlier), last, id);
    }
  }

  // --- reconciling is complete ---

  /** The store holds exactly the decision that the entry intends, on its tool call. */
  predicate HoldsIntent(t: Tools, e: Entry, rows: Rows) {
    && e.id in rows && IsCallOf(rows[e.id], e)
    && rows[e.id].decision == Some(Durable(e.requestId, e.choice, e.text, t.digest(e.choice, e.text)))
  }

  predicate IsCallOf(row: Row, e: Entry) {
    row.call.id == e.call.id && row.call.fingerprint == e.call.fingerprint && row.call.session == e.call.session
  }

  /** The checkpoint still waits for its decision. */
  predicate StillWaits(e: Entry, rows: Rows) {
    e.id in rows && IsCallOf(rows[e.id], e) && rows[e.id].pending && rows[e.id].decision.None?
  }

  /** Why the entry stops a reconciliation, if it does. */
  function Mismatch(t: Tools, e: Entry, rows: Rows): Option<Failure> {
    if e.acknowledged then None
    else if e.id !in rows then Some(LostCheckpoint)
    else if !IsCallOf(rows[e.id], e) then Some(Drifted)
    else if rows[e.id].decision.None? && !rows[e.id].pending then Some(NoDurableDecision)
    else if rows[e.id].decision.Some? && !HoldsIntent(t, e, rows) then Some(Conflict)
    else None
  }

  lemma RecoverIsExact(t: Tools, e: Entry, rows: Rows)
    ensures var mismatch := Mismatch(t, e, rows);
      && (mismatch.Some? ==> Recover(t, e, rows) == Err(mismatch.value))
      && (mismatch.None? ==> e.acknowledged || StillWaits(e, rows) || HoldsIntent(t, e, rows))
      && (e.acknowledged || StillWaits(e, rows) ==> Recover(t, e, rows) == Ok(e))
      && (!e.acknowledged && HoldsIntent(t, e, rows) ==>
            Recover(t, e, rows) == Ok(e.(acknowledged := true, stage := RecoveredAfterSubmit)))
  {
  }

  /** The entries before `n` are recovered one by one; at `n` reconciling stops, or is done. */
  lemma {:induction false} ReconciledUpTo(t: Tools, journal: Journal, rows: Rows, upTo: nat) returns (n: nat)
    ensures var (after, failure) := Reconciled(t, journal, rows, upTo);
      && n <= |journal| == |after| && n <= upTo
      && (forall i | 0 <= i < n :: Recover(t, journal[i], rows) == Ok(after[i]))
      && (forall i | n <= i < |journal| :: after[i] == journal[i])
      && (failure.None? ==> n == |journal| || n == upTo)
      && (failure.Some? ==> n < |journal| && Recover(t, journal[n], rows) == Err(failure.value))
  {
    if journal == [] || upTo == 0 || Recover(t, journal[0], rows).Err? {
      n := 0;
    } else {
      var k := ReconciledUpTo(t, journal[1..], rows, upTo - 1);
      n := k + 1;
    }
  }

  /** What reconciling makes of an entry that does not stop it. */
  predicate IsReconciled(t: Tools, e: Entry, rows: Rows, after: Entry) {
    && Mismatch(t, e, rows).None?
    && after == if !e.acknowledged && HoldsIntent(t, e, rows)
                then e.(acknowledged := true, stage := RecoveredAfterSubmit) else e
  }

  /**
  Reconciling the whole journal goes through exactly when no entry mismatches its row.  Then every intent
  that the store holds comes back acknowledged as recovered, and every other entry as it was.
  */
  lemma ReconcileIsComplete(t: Tools, journal: Journal, rows: Rows)
    ensures var (after, failure) := Reconciled(t, journal, rows, |journal|);
      && (failure.None? <==> forall e | e in journal :: Mismatch(t, e, rows).None?)
      && (failure.None? ==>
            |after| == |journal| && forall i | 0 <= i < |journal| :: IsReconciled(t, journal[i], rows, after[i]))
  {
    var (after, failure) := Reconciled(t, journal, rows, |journal|);
    var n := ReconciledUpTo(t, journal, rows, |journal|);
    forall i | 0 <= i < n ensures IsReconciled(t, journal[i], rows, after[i]) {
      RecoverIsExact(t, journal[i], rows);
    }
    if failure.Some? {
      RecoverIsExact(t, journal[n], rows);
      assert journal[n] in journal && Mismatch(t, journal[n], rows).Some?;
    }
  }

  /** It stops at the first entry that mismatches its row, with the reason, and what came before stays recovered. */
  lemma ReconcileStopsAtTheFirst(t: Tools, journal: Journal, rows: Rows) returns (n: nat)
    requires Reconciled(t, journal, rows, |journal|).1.Some?
    ensures var (after, failure) := Reconciled(t, journal, rows, |journal|);
      && n < |journal| == |after| && Mismatch(t, journal[n], rows) == failure
      && (forall i | 0 <= i < n :: IsReconciled(t, journal[i], rows, after[i]))
      && (forall i | n <= i < |journal| :: after[i] == journal[i])
  {
    var (after, failure) := Reconciled(t, journal, rows, |journal|);
    n := ReconciledUpTo(t, journal, rows, |journal|);
    forall i | 0 <= i < n ensures IsReconciled(t, journal[i], rows, after[i]) {
      RecoverIsExact(t, journal[i], rows);
    }
    RecoverIsExact(t, journal[n], rows);
  }

  lemma {:induction false} FindAt(journal: Journal, id: Id) returns (i: nat)
    requires Find(journal, id).Some?
    ensures i < |journal| && journal[i] == Find(journal, id).value
    ensures forall after: Journal | |after| == |journal| && (forall k | 0 <= k < |journal| :: after[k].id == journal[k].id) ::
      Find(after, id) == Some(after[i])
  {
    if journal[0].id == id {
      i := 0;
    } else {
      var k := FindAt(journal[1..], id);
      i := k + 1;
      forall after: Journal | |after| == |journal| && (forall k | 0 <= k < |journal| :: after[k].id == journal[k].id)
        ensures Find(after, id) == Some(after[i])
      {
        assert Find(after[1..], id) == Some(after[1..][k]);
      }
    }
  }

  /** An intent whose decision the store holds is acknowledged after the next reconciliation that goes through. */
  lemma HeldIntentIsAcknowledged(t: Tools, journal: Journal, rows: Rows, id: Id)
    requires Find(journal, id).Some? && HoldsIntent(t, Find(journal, id).value, rows)
    requires Reconciled(t, journal, rows, |journal|).1.None?
    ensures IsAcknowledged(Reconciled(t, journal, rows, |journal|).0, id)
  {
    var i := FindAt(journal, id);
    ReconcileIsComplete(t, journal, rows);
  }

  lemma RunNext(t: Tools, w: Workplace, actions: seq<Action>, a: Action)
    ensures Run(t, w, actions + [a]) == Step(t, Run(t, w, actions), a)
  {
    assert (actions + [a])[..|actions|] == actions;
  }

  /**
  A driver that died while the store held the decision of its intent: once it has resumed and reconciled, the
  decision is acknowledged, or it has stopped because an entry of the journal mismatches its row.
  */
  lemma HeldIntentIsRecovered(t: Tools, w: Workplace, actions: seq<Action>, id: Id)
    requires var s := Run(t, w, actions);
      s.process.None? && Find(s.journal, id).Some? && HoldsIntent(t, Find(s.journal, id).value, s.rows)
    ensures var s := Run(t, w, actions);
      var after := Run(t, w, actions + [Resume] + [Reconcile(|s.journal|)]);
      if forall e | e in s.journal :: Mismatch(t, e, s.rows).None? then IsAcknowledged(after.journal, id)
      else after.process.None?
  {
    var s := Run(t, w, actions);
    RunNext(t, w, actions, Resume);
    RunNext(t, w, actions + [Resume], Reconcile(|s.journal|));
    ReconcileIsComplete(t, s.journal, s.rows);
    if Reconciled(t, s.journal, s.rows, |s.journal|).1.None? { HeldIntentIsAcknowledged(t, s.journal, s.rows, id); }
  }

  lemma AcceptedIntentIsHeld(t: Tools, rows: Rows, e: Entry)
    requires CanAccept(t, rows, e) && IsCallOf(rows[e.id], e)
    ensures HoldsIntent(t, e, Decided(t, rows, e))
  {
  }

  /** The answer to a submission is lost after the engine has recorded it: the next resume recovers it. */
  lemma LostAnswerIsRecovered(t: Tools, w: Workplace, actions: seq<Action>, e: Entry)
    requires var s := Run(t, w, actions);
      && s.process.Some? && s.process.value.phase.Intending? && s.process.value.phase.intent == e
      && CanAccept(t, s.rows, e) && IsCallOf(s.rows[e.id], e)
    ensures var lost := Run(t, w, actions + [Submit(Lost(true))]);
      var after := Run(t, w, actions + [Submit(Lost(true))] + [Resume] + [Reconcile(|lost.journal|)]);
      if forall x | x in lost.journal :: Mismatch(t, x, lost.rows).None? then IsAcknowledged(after.journal, e.id)
      else after.process.None?
  {
    var s := Run(t, w, actions);
    EveryRunIsSound(t, w, actions);
    RunNext(t, w, actions, Submit(Lost(true)));
    AcceptedIntentIsHeld(t, s.rows, e);
    HeldIntentIsRecovered(t, w, actions + [Submit(Lost(true))], e.id);
  }

  // --- one text per checkpoint, as long as nothing that it depends on changes ---

  /** Wherever the checkpoint is stored it has this call, and whenever it is planned the validator answers this. */
  ghost predicate IsSteady(t: Tools, w: Workplace, actions: seq<Action>, id: Id, call: Call, v: Verdict) {
    && (forall k | 0 <= k <= |actions| ::
          id in Run(t, w, actions[..k]).rows ==> Run(t, w, actions[..k]).rows[id].call == call)
    && (forall k | 0 <= k < |actions| && actions[k].Plan? && actions[k].id == id ::
          t.answer(Run(t, w, actions[..k]).workplace, call) == v)
  }

  /** Whatever the driver has in hand for the checkpoint rests on that call and that answer. */
  ghost predicate InHand(s: System, id: Id, call: Call, v: Verdict) {
    && (s.process.Some? ==>
          && (id in s.process.value.snapshot ==> s.process.value.snapshot[id].call == call)
          && var phase := s.process.value.phase;
             (phase.Intending? && phase.intent.id == id ==>
                phase.intent.call == call && phase.intent.choice == ChoiceOf(v) && phase.intent.text == TextOf(v)))
    && forall sub | sub in s.submissions && sub.id == id ::
         sub.call == call && sub.choice == ChoiceOf(v) && sub.text == TextOf(v)
  }

  lemma PlanKeepsInHand(t: Tools, s: System, plan: Id, found: Lookup, id: Id, call: Call, v: Verdict)
    requires s.process.Some? && CanPlan(s.process.value, plan) && InHand(s, id, call, v)
    requires plan == id ==> t.answer(s.workplace, call) == v
    ensures InHand(AfterPlan(t, s, plan, found), id, call, v)
  {
    var cp := CheckpointOf(plan, s.process.value.snapshot[plan]);
    if Vet(t, s.journal, cp, found, s.workplace).Ok? {
      VetIsVetDecision(t, s.journal, cp, found, s.workplace);
    }
  }

  lemma StepKeepsInHand(t: Tools, s: System, a: Action, id: Id, call: Call, v: Verdict)
    requires InHand(s, id, call, v)
    requires id in s.rows ==> s.rows[id].call == call
    requires a.Plan? && a.id == id ==> t.answer(s.workplace, call) == v
    ensures InHand(Step(t, s, a), id, call, v)
  {
    if a.Plan? && s.process.Some? && CanPlan(s.process.value, a.id) {
      PlanKeepsInHand(t, s, a.id, a.found, id, call, v);
    }
  }

  lemma {:induction false} SteadyRunKeepsInHand(
      t: Tools, w: Workplace, actions: seq<Action>, id: Id, call: Call, v: Verdict)
    requires IsSteady(t, w, actions, id, call, v)
    ensures InHand(Run(t, w, actions), id, call, v)
  {
    if actions != [] {
      var before := actions[..|actions| - 1];
      assert forall k | 0 <= k <= |before| :: actions[..k] == before[..k];
      assert before[..|before|] == before;
      SteadyRunKeepsInHand(t, w, before, id, call, v);
      StepKeepsInHand(t, Run(t, w, before), actions[|actions| - 1], id, call, v);
    }
  }

  /**
  As long as the tool call of a checkpoint, and what the validator answers to it, stay the same, all its
  submissions carry one text, however often the driver crashes and resumes.
  */
  lemma OneTextPerCheckpoint(
      t: Tools, w: Workplace, actions: seq<Action>, id: Id, call: Call, v: Verdict, sub: Submission)
    requires IsSteady(t, w, actions, id, call, v)
    requires sub in Run(t, w, actions).submissions && sub.id == id
    ensures sub.call == call && sub.choice == ChoiceOf(v) && sub.text == TextOf(v)
  {
    SteadyRunKeepsInHand(t, w, actions, id, call, v);
  }

  // --- two attempts in two workplaces ---

  function Steps(t: Tools, s: System, actions: seq<Action>): System
    decreases |actions|
  {
    if actions == [] then s else Steps(t, Step(t, s, actions[0]), actions[1..])
  }

  lemma StepsNext(t: Tools, s: System, a: Action, rest: seq<Action>)
    ensures Steps(t, s, [a] + rest) == Steps(t, Step(t, s, a), rest)
  {
    assert ([a] + rest)[1..] == rest;
  }

  lemma {:induction false} RunThenSteps(t: Tools, w: Workplace, before: seq<Action>, after: seq<Action>)
    ensures Run(t, w, before + after) == Steps(t, Run(t, w, before), after)
    decreases |after|
  {
    if after == [] {
      assert before + after == before;
    } else {
      var next := before + [after[0]];
      assert next[..|next| - 1] == before && before + after == next + after[1..];
      RunThenSteps(t, w, next, after[1..]);
    }
  }

  /** An intent whose checkpoint is still pending, without a decision, stays as it is. */
  lemma ReconcileWaits(t: Tools, journal: Journal, rows: Rows)
    requires |journal| <= 1
    requires forall e | e in journal :: Recover(t, e, rows) == Ok(e)
    ensures Reconciled(t, journal, rows, 1) == (journal, None)
  {
    if journal != [] {
      assert journal[0] in journal && journal == [journal[0]] + journal[1..];
      assert Reconciled(t, journal[1..], rows, 0) == (journal[1..], None);
    }
  }

  lemma OnlyEntryIsReplaced(journal: Journal, e: Entry)
    requires journal == [] || (|journal| == 1 && journal[0].id == e.id)
    ensures RejectedElsewhere(journal, e.id) == [] && Upsert(journal, e) == [e]
  {
    if journal != [] {
      assert journal[1..] == [];
      assert RejectedElsewhere(journal[1..], e.id) == [];
    }
  }

  /** A pending checkpoint without a decision whose call is in scope and may be denied. */
  predicate IsOpen(t: Tools, id: Id, row: Row, found: Lookup) {
    && row.pending && row.decision.None? && Deny in row.offered
    && ScopeFailure(t, CheckpointOf(id, row), found).None?
  }

  /** The journal of a driver whose only decision so far, if any, is an unacknowledged denial of this call. */
  predicate HoldsOnly(t: Tools, journal: Journal, id: Id, row: Row) {
    || journal == []
    || (|journal| == 1 && journal[0].id == id && journal[0].call == row.call && journal[0].choice == Deny
        && !journal[0].acknowledged)
  }

  /** The driver resumes, reconciles and reads the pending checkpoints. */
  lemma AttemptStarts(t: Tools, s: System, id: Id, row: Row)
    requires s.process.None? && s.rows == map[id := row] && row.pending && row.decision.None?
    requires HoldsOnly(t, s.journal, id, row)
    ensures Steps(t, s, [Resume] + ([Reconcile(1)] + ([Fetch] + []))) ==
            s.(process := Some(Process({}, map[id := row], Idle)))
  {
    assert AcknowledgedIds(s.journal) == {};
    var s1 := s.(process := Some(Process({}, map[], Idle)));
    assert Step(t, s, Resume) == s1;
    ReconcileWaits(t, s.journal, s.rows);
    assert Step(t, s1, Reconcile(1)) == s1;
    assert PendingIn(s.rows) == map[id := row];
    StepsNext(t, s, Resume, [Reconcile(1)] + ([Fetch] + []));
    StepsNext(t, s1, Reconcile(1), [Fetch] + []);
    StepsNext(t, s1, Fetch, []);
  }

  lemma DenialIsVetted(t: Tools, journal: Journal, id: Id, row: Row, found: Lookup, w: Workplace)
    requires IsOpen(t, id, row, found) && t.answer(w, row.call).Unmodelled? && HoldsOnly(t, journal, id, row)
    ensures var e := IntentOf(t, CheckpointOf(id, row), t.answer(w, row.call));
      Vet(t, journal, CheckpointOf(id, row), found, w) == Ok(Intent(e)) && Upsert(journal, e) == [e]
  {
    OnlyEntryIsReplaced(journal, IntentOf(t, CheckpointOf(id, row), t.answer(w, row.call)));
  }

  lemma IntentIsJournaled(t: Tools, s: System, id: Id, found: Lookup, e: Entry)
    requires s.process.Some? && CanPlan(s.process.value, id)
    requires Vet(t, s.journal, CheckpointOf(id, s.process.value.snapshot[id]), found, s.workplace) == Ok(Intent(e))
    ensures Step(t, s, Plan(id, found)) ==
            s.(journal := Upsert(s.journal, e),
               process := Some(s.process.value.(phase := Intending(e, s.workplace))))
  {
    hide Vet, Upsert;
  }

  lemma AnswerIsLost(t: Tools, s: System, e: Entry, w: Workplace)
    requires s.process.Some? && s.process.value.phase == Intending(e, w)
    ensures Step(t, s, Submit(Lost(false))) ==
            s.(process := None, submissions := s.submissions
                 + [Submission(e.id, e.call, e.requestId, e.choice, e.text, w, s.journal)])
  {
  }

  /** It plans a denial and submits it, and the answer is lost before the engine records anything. */
  lemma AttemptEnds(t: Tools, s: System, id: Id, row: Row, found: Lookup, e: Entry)
    requires s.process == Some(Process({}, map[id := row], Idle))
    requires Vet(t, s.journal, CheckpointOf(id, row), found, s.workplace) == Ok(Intent(e))
    requires Upsert(s.journal, e) == [e]
    ensures Steps(t, s, [Plan(id, found)] + ([Submit(Lost(false))] + [])) ==
      s.(journal := [e], process := None, submissions := s.submissions
           + [Submission(e.id, e.call, e.requestId, e.choice, e.text, s.workplace, [e])])
  {
    IntentIsJournaled(t, s, id, found, e);
    var s1 := s.(journal := [e], process := Some(s.process.value.(phase := Intending(e, s.workplace))));
    AnswerIsLost(t, s1, e, s.workplace);
    StepsNext(t, s, Plan(id, found), [Submit(Lost(false))] + []);
    StepsNext(t, s1, Submit(Lost(false)), []);
  }

  function Attempt(id: Id, found: Lookup): seq<Action> {
    [Resume] + ([Reconcile(1)] + ([Fetch] + [])) + ([Plan(id, found)] + ([Submit(Lost(false))] + []))
  }

  lemma {:induction false} StepsInTwo(t: Tools, s: System, first: seq<Action>, rest: seq<Action>)
    ensures Steps(t, s, first + rest) == Steps(t, Steps(t, s, first), rest)
    decreases |first|
  {
    if first == [] {
      assert first + rest == rest;
    } else {
      assert (first + rest)[1..] == first[1..] + rest;
      StepsInTwo(t, Step(t, s, first[0]), first[1..], rest);
    }
  }

  lemma AttemptIsSubmitted(t: Tools, s: System, id: Id, row: Row, found: Lookup) returns (end: System)
    requires IsOpen(t, id, row, found) && t.answer(s.workplace, row.call).Unmodelled?
    requires s.process.None? && s.rows == map[id := row] && HoldsOnly(t, s.journal, id, row)
    ensures end == Steps(t, s, Attempt(id, found))
    ensures
      && end.process.None? && end.rows == s.rows && HoldsOnly(t, end.journal, id, row)
      && |end.submissions| == |s.submissions| + 1 && end.submissions[..|s.submissions|] == s.submissions
      && var sub := end.submissions[|s.submissions|];
         sub.id == id && sub.text == TextOf(t.answer(s.workplace, row.call))
  {
    AttemptStarts(t, s, id, row);
    StepsInTwo(t, s, [Resume] + ([Reconcile(1)] + ([Fetch] + [])), [Plan(id, found)] + ([Submit(Lost(false))] + []));
    DenialIsVetted(t, s.journal, id, row, found, s.workplace);
    var e := IntentOf(t, CheckpointOf(id, row), t.answer(s.workplace, row.call));
    AttemptEnds(t, s.(process := Some(Process({}, map[id := row], Idle))), id, row, found, e);
    end := Steps(t, s, Attempt(id, found));
  }

  lemma ChangeNext(t: Tools, s: System, second: Workplace, rest: seq<Action>)
    ensures Steps(t, s, [Change(second)] + rest) == Steps(t, s.(workplace := second), rest)
  {
    var whole := [Change(second)] + rest;
    assert whole[0] == Change(second) && whole[1..] == rest;
    assert Step(t, s, Change(second)) == s.(workplace := second);
  }

  lemma SecondIsSubmitted(t: Tools, s: System, second: Workplace, id: Id, row: Row, found: Lookup) returns (end: System)
    requires IsOpen(t, id, row, found) && t.answer(second, row.call).Unmodelled?
    requires s.process.None? && s.rows == map[id := row] && HoldsOnly(t, s.journal, id, row)
    ensures end == Steps(t, s, [Change(second)] + Attempt(id, found))
    ensures |end.submissions| == |s.submissions| + 1 && end.submissions[..|s.submissions|] == s.submissions
    ensures var sub := end.submissions[|s.submissions|]; sub.id == id && sub.text == TextOf(t.answer(second, row.call))
  {
    ChangeNext(t, s, second, Attempt(id, found));
    end := AttemptIsSubmitted(t, s.(workplace := second), id, row, found);
  }

  lemma BothAreSubmitted(t: Tools, s: System, second: Workplace, id: Id, row: Row, found: Lookup) returns (end: System)
    requires IsOpen(t, id, row, found)
    requires t.answer(s.workplace, row.call).Unmodelled? && t.answer(second, row.call).Unmodelled?
    requires s.process.None? && s.rows == map[id := row] && s.journal == [] && s.submissions == []
    ensures end == Steps(t, s, Attempt(id, found) + ([Change(second)] + Attempt(id, found)))
    ensures |end.submissions| == 2 && end.submissions[0].id == end.submissions[1].id == id
    ensures end.submissions[0].text == TextOf(t.answer(s.workplace, row.call))
    ensures end.submissions[1].text == TextOf(t.answer(second, row.call))
  {
    StepsInTwo(t, s, Attempt(id, found), [Change(second)] + Attempt(id, found));
    var between := AttemptIsSubmitted(t, s, id, row, found);
    end := SecondIsSubmitted(t, between, second, id, row, found);
    assert end.submissions[0] == end.submissions[..1][0];
  }

  /** The checkpoint is published, a first attempt fails, the workplace changes, and a second one fails. */
  function TwoAttempts(id: Id, row: Row, found: Lookup, second: Workplace): seq<Action> {
    [Engine(map[id := row])] + (Attempt(id, found) + ([Change(second)] + Attempt(id, found)))
  }

  lemma RunFromPublished(t: Tools, w: Workplace, id: Id, row: Row, rest: seq<Action>)
    ensures Run(t, w, [Engine(map[id := row])] + rest) == Steps(t, System([], map[id := row], w, None, []), rest)
  {
    var published := [Engine(map[id := row])];
    assert published[..0] == [];
    assert Run(t, w, published) == Step(t, System([], map[], w, None, []), published[0]);
    RunThenSteps(t, w, published, rest);
  }

  /**
  Two denials of one checkpoint, neither of which the engine recorded, carry what the validator answers
  in the workplace at the time of each.
  */
  lemma AttemptsAreSubmitted(t: Tools, first: Workplace, second: Workplace, id: Id, row: Row, found: Lookup)
    requires IsOpen(t, id, row, found)
    requires t.answer(first, row.call).Unmodelled? && t.answer(second, row.call).Unmodelled?
    ensures var submissions := Run(t, first, TwoAttempts(id, row, found, second)).submissions;
      && |submissions| == 2 && submissions[0].id == submissions[1].id == id
      && submissions[0].text == TextOf(t.answer(first, row.call))
      && submissions[1].text == TextOf(t.answer(second, row.call))
  {
    RunFromPublished(t, first, id, row, Attempt(id, found) + ([Change(second)] + Attempt(id, found)));
    var end := BothAreSubmitted(t, System([], map[id := row], first, None, []), second, id, row, found);
  }
}
