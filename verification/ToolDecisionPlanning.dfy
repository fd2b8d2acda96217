/**
Which tool decisions are planned, and what comes of one that the engine accepts: the conditions are said
of the checkpoint, the store and the journal themselves.
*/
module ToolDecisionPlanning {
  import opened Wrappers
  import opened Text
  import opened ToolDecisions
  import opened ToolDecisionTheorems

  // --- scope ---

  /** The second is the first without the whitespace around its identities. */
  ghost predicate IsCleaned(cp: Checkpoint, clean: Checkpoint) {
    && clean.id == cp.id && clean.offered == cp.offered && clean.call.arguments == cp.call.arguments
    && clean.call.id == Trim(cp.call.id) && clean.call.fingerprint == Trim(cp.call.fingerprint)
    && clean.call.session == Trim(cp.call.session) && clean.call.name == Trim(cp.call.name)
    && clean.claim.taskId == Trim(cp.claim.taskId) && clean.claim.project == Trim(cp.claim.project)
    && clean.claim.waitingTaskId == Trim(cp.claim.waitingTaskId)
    && clean.claim.rootSession == Trim(cp.claim.rootSession) && clean.claim.anchor == Trim(cp.claim.anchor)
  }

  ghost predicate IsCleanedLookup(found: Lookup, clean: Lookup) {
    && (found.task.None? <==> clean.task.None?)
    && (found.task.Some? ==>
          && clean.task.value.project == Trim(found.task.value.project)
          && clean.task.value.role == Trim(found.task.value.role)
          && clean.task.value.hasShellPrefix == found.task.value.hasShellPrefix)
    && (found.identity.None? <==> clean.identity.None?)
    && (found.identity.Some? ==>
          && clean.identity.value.session == Trim(found.identity.value.session)
          && clean.identity.value.anchor == Trim(found.identity.value.anchor))
  }

  /** The condition whose violation the failure reports. */
  ghost predicate Meets(t: Tools, cp: Checkpoint, found: Lookup, usesShell: bool, check: Failure) {
    match check
    case LacksIdentity =>
      && cp.call.id != "" && cp.call.name != "" && cp.call.fingerprint != "" && cp.call.session != ""
      && cp.claim.waitingTaskId != "" && cp.claim.rootSession != ""
    case OtherTask => cp.claim.taskId == cp.claim.waitingTaskId
    case NoTask => found.task.Some?
    case OtherProject => found.task.Some? ==> found.task.value.project == cp.claim.project
    case OtherRole => found.task.Some? ==> found.task.value.role in t.roles
    case NoIdentity => found.identity.Some?
    case OtherSession => found.identity.Some? ==> found.identity.value.session == t.session
    case OtherAnchor => found.identity.Some? ==> t.anchor != "" && found.identity.value.anchor == t.anchor
    case SessionDrifted => found.identity.Some? ==> cp.claim.rootSession == found.identity.value.session
    case AnchorDrifted => found.identity.Some? ==> cp.claim.anchor == found.identity.value.anchor
    case UnreviewedPrefix => found.task.Some? ==> !(usesShell && found.task.value.hasShellPrefix)
    case _ => true
  }

  ghost predicate MeetsAll(t: Tools, cp: Checkpoint, found: Lookup, usesShell: bool) {
    forall check: Failure :: Meets(t, cp, found, usesShell, check)
  }

  /** The place of a check among the checks of the scope. */
  function Turn(check: Failure): nat {
    match check
    case LacksIdentity => 0
    case OtherTask => 1
    case NoTask => 2
    case OtherProject => 3
    case OtherRole => 4
    case NoIdentity => 5
    case OtherSession => 6
    case OtherAnchor => 7
    case SessionDrifted => 8
    case AnchorDrifted => 9
    case UnreviewedPrefix => 10
    case _ => 11
  }

  /** The checks, on identities that have been cleaned. */
  function CleanFailure(t: Tools, cp: Checkpoint, found: Lookup, usesShell: bool): Option<Failure> {
    if cp.call.id == "" || cp.call.name == "" || cp.call.fingerprint == "" || cp.call.session == "" then Some(LacksIdentity)
    else if cp.claim.waitingTaskId == "" || cp.claim.rootSession == "" then Some(LacksIdentity)
    else if cp.claim.taskId != cp.claim.waitingTaskId then Some(OtherTask)
    else if found.task.None? then Some(NoTask)
    else if found.task.value.project != cp.claim.project then Some(OtherProject)
    else if found.task.value.role !in t.roles then Some(OtherRole)
    else if found.identity.None? then Some(NoIdentity)
    else if found.identity.value.session != t.session then Some(OtherSession)
    else if t.anchor == "" || found.identity.value.anchor != t.anchor then Some(OtherAnchor)
    else if cp.claim.rootSession != found.identity.value.session then Some(SessionDrifted)
    else if cp.claim.anchor != found.identity.value.anchor then Some(AnchorDrifted)
    else if usesShell && found.task.value.hasShellPrefix then Some(UnreviewedPrefix)
    else None
  }

  lemma ScopeIsClean(t: Tools, cp: Checkpoint, clean: Checkpoint, found: Lookup, cleanFound: Lookup)
    requires IsCleaned(cp, clean) && IsCleanedLookup(found, cleanFound)
    ensures ScopeFailure(t, cp, found) == CleanFailure(t, clean, cleanFound, cp.call.name == "shell_exec")
  {
    hide Trim;
  }

  lemma CleanIsExact(t: Tools, cp: Checkpoint, found: Lookup, usesShell: bool)
    ensures CleanFailure(t, cp, found, usesShell).None? <==> MeetsAll(t, cp, found, usesShell)
    ensures match CleanFailure(t, cp, found, usesShell)
            case None => true
            case Some(f) =>
              && !Meets(t, cp, found, usesShell, f)
              && forall check: Failure | Turn(check) < Turn(f) :: Meets(t, cp, found, usesShell, check)
  {
    var failure := CleanFailure(t, cp, found, usesShell);
    if failure.Some? { assert !Meets(t, cp, found, usesShell, failure.value); }
  }

  /**
  A checkpoint is in scope exactly when it meets every condition; otherwise the failure names the first
  one that it does not meet.
  */
  lemma ScopeIsExact(t: Tools, cp: Checkpoint, clean: Checkpoint, found: Lookup, cleanFound: Lookup)
    requires IsCleaned(cp, clean) && IsCleanedLookup(found, cleanFound)
    ensures ScopeFailure(t, cp, found).None? <==> MeetsAll(t, clean, cleanFound, cp.call.name == "shell_exec")
    ensures var usesShell := cp.call.name == "shell_exec";
      match ScopeFailure(t, cp, found)
      case None => true
      case Some(f) =>
        && !Meets(t, clean, cleanFound, usesShell, f)
        && forall check: Failure | Turn(check) < Turn(f) :: Meets(t, clean, cleanFound, usesShell, check)
  {
    ScopeIsClean(t, cp, clean, found, cleanFound);
    CleanIsExact(t, clean, cleanFound, cp.call.name == "shell_exec");
  }

  /** The checkpoint meets every condition of the case. */
  ghost predicate InScope(t: Tools, cp: Checkpoint, found: Lookup) {
    exists clean, cleanFound ::
      IsCleaned(cp, clean) && IsCleanedLookup(found, cleanFound) && MeetsAll(t, clean, cleanFound, cp.call.name == "shell_exec")
  }

  lemma CanBeCleaned(cp: Checkpoint, found: Lookup) returns (clean: Checkpoint, cleanFound: Lookup)
    ensures IsCleaned(cp, clean) && IsCleanedLookup(found, cleanFound)
  {
    var call, claim := cp.call, cp.claim;
    clean := Checkpoint(
      cp.id, Call(Trim(call.id), Trim(call.fingerprint), Trim(call.session), Trim(call.name), call.arguments), cp.offered,
      Claim(Trim(claim.taskId), Trim(claim.project), Trim(claim.waitingTaskId), Trim(claim.rootSession), Trim(claim.anchor)));
    cleanFound := Lookup(None, None);
    if found.task.Some? {
      var task := found.task.value;
      cleanFound := cleanFound.(task := Some(Task(Trim(task.project), Trim(task.role), task.hasShellPrefix)));
    }
    if found.identity.Some? {
      var identity := found.identity.value;
      cleanFound := cleanFound.(identity := Some(Identity(Trim(identity.session), Trim(identity.anchor))));
    }
  }

  lemma InScopeExactly(t: Tools, cp: Checkpoint, found: Lookup)
    ensures InScope(t, cp, found) <==> ScopeFailure(t, cp, found).None?
  {
    var usesShell := cp.call.name == "shell_exec";
    forall clean, cleanFound | IsCleaned(cp, clean) && IsCleanedLookup(found, cleanFound)
      ensures ScopeFailure(t, cp, found).None? <==> MeetsAll(t, clean, cleanFound, usesShell)
    {
      ScopeIsExact(t, cp, clean, found, cleanFound);
    }
    var clean, cleanFound := CanBeCleaned(cp, found);
  }

  // --- the bounds, counted ---

  /** The entries of other checkpoints that were denied. */
  function DeniedAt(journal: Journal, id: Id): set<nat> {
    set i: nat | i < |journal| && journal[i].choice == Deny && journal[i].id != id
  }

  /** Those of them whose call has the signature. */
  function DeniedAlikeAt(journal: Journal, id: Id, signature: string): set<nat> {
    set i: nat | i < |journal| && journal[i].choice == Deny && journal[i].id != id && journal[i].signature == signature
  }

  function Shifted(places: set<nat>): set<nat> {
    set i: nat | i in places :: i + 1
  }

  lemma ShiftedHas(places: set<nat>, j: nat)
    ensures j in Shifted(places) <==> j > 0 && j - 1 in places
  {
    if j > 0 && j - 1 in places {
      var i: nat := j - 1;
      assert i in places && i + 1 == j;
    }
  }

  lemma {:induction false} ShiftKeepsSize(places: set<nat>)
    ensures |Shifted(places)| == |places|
  {
    if places != {} {
      var i :| i in places;
      ShiftKeepsSize(places - {i});
      forall j: nat ensures j in Shifted(places) <==> j in Shifted(places - {i}) || j == i + 1 {
        ShiftedHas(places, j);
        ShiftedHas(places - {i}, j);
      }
      ShiftedHas(places - {i}, i + 1);
      assert Shifted(places) == Shifted(places - {i}) + {i + 1};
    }
  }

  /** A set of places is that of the tail, moved by one, with the first place if it belongs to it. */
  lemma SizeInTwo(places: set<nat>, later: set<nat>)
    requires forall i: nat :: i in places && i > 0 <==> i in Shifted(later)
    ensures |places| == |later| + if 0 in places then 1 else 0
  {
    ShiftKeepsSize(later);
    assert places == Shifted(later) + if 0 in places then {0} else {};
  }

  lemma {:induction false} DenialsAreCounted(journal: Journal, id: Id)
    ensures |RejectedElsewhere(journal, id)| == |DeniedAt(journal, id)|
  {
    if journal == [] {
      assert DeniedAt(journal, id) == {};
    } else {
      DenialsAreCounted(journal[1..], id);
      forall i: nat ensures i in DeniedAt(journal, id) && i > 0 <==> i in Shifted(DeniedAt(journal[1..], id)) {
        ShiftedHas(DeniedAt(journal[1..], id), i);
      }
      SizeInTwo(DeniedAt(journal, id), DeniedAt(journal[1..], id));
    }
  }

  lemma {:induction false} RepeatsAreCounted(journal: Journal, id: Id, signature: string)
    ensures Repeats(RejectedElsewhere(journal, id), signature) == |DeniedAlikeAt(journal, id, signature)|
  {
    if journal == [] {
      assert DeniedAlikeAt(journal, id, signature) == {};
    } else {
      RepeatsAreCounted(journal[1..], id, signature);
      var all, rest := DeniedAlikeAt(journal, id, signature), DeniedAlikeAt(journal[1..], id, signature);
      forall i: nat ensures i in all && i > 0 <==> i in Shifted(rest) {
        ShiftedHas(rest, i);
      }
      SizeInTwo(all, rest);
      var later := RejectedElsewhere(journal[1..], id);
      assert ([journal[0]] + later)[1..] == later;
    }
  }

  // --- vetting ---

  /** The decision that the validator's answer calls for. */
  ghost predicate IsAnswer(v: Verdict, choice: Choice, text: string) {
    match v
    case Modelled => choice == ApproveOnce && text == "approve_once"
    case Unmodelled(feedback) => choice == Deny && text == feedback
  }

  /** The journal's entry for the checkpoint, if there is one, is on the same call and the same option. */
  predicate Agrees(prior: Option<Entry>, cp: Checkpoint, choice: Choice) {
    prior.Some? ==>
      && prior.value.call.id == cp.call.id && prior.value.call.fingerprint == cp.call.fingerprint
      && prior.value.call.session == cp.call.session && prior.value.choice == choice
  }

  /** Fewer than six other checkpoints were denied, and fewer than two of them with a call like this one. */
  predicate MayBeDenied(t: Tools, journal: Journal, cp: Checkpoint) {
    |DeniedAt(journal, cp.id)| < 6 && |DeniedAlikeAt(journal, cp.id, t.signature(cp.call))| < 2
  }

  /** A new intent of that decision. */
  ghost predicate IsIntent(t: Tools, cp: Checkpoint, choice: Choice, text: string, e: Entry) {
    && e.id == cp.id && e.call == cp.call && e.signature == t.signature(cp.call)
    && e.choice == choice && e.text == text && e.requestId == t.requestId(cp.id, choice)
    && !e.acknowledged && e.stage == Planned && !e.reported && !e.deduplicated
  }

  /**
  What becomes of a decision: an option that is not offered, or one that differs from what was journaled,
  fails; a decision that was acknowledged is a duplicate; a denial over the bounds fails; and everything
  else is an intent.
  */
  lemma VettingIsExact(t: Tools, journal: Journal, cp: Checkpoint, v: Verdict, choice: Choice, text: string)
    requires IsAnswer(v, choice, text)
    ensures var prior, vetted := Find(journal, cp.id), VetDecision(t, journal, cp, v);
      if choice !in cp.offered then vetted == Err(NotOffered)
      else if !Agrees(prior, cp, choice) then vetted == Err(Drifted)
      else if prior.Some? && prior.value.acknowledged then vetted == Ok(Duplicate(prior.value.(deduplicated := true)))
      else if choice == ApproveOnce || MayBeDenied(t, journal, cp) then
        vetted.Ok? && vetted.value.Intent? && IsIntent(t, cp, choice, text, vetted.value.e)
      else vetted == Err(if |DeniedAt(journal, cp.id)| >= 6 then TooManyDenials else RepeatedCall)
  {
    DenialsAreCounted(journal, cp.id);
    RepeatsAreCounted(journal, cp.id, t.signature(cp.call));
  }

  /** A checkpoint on which the driver decides anew, and how. */
  ghost predicate IsDue(t: Tools, journal: Journal, cp: Checkpoint, found: Lookup, w: Workplace, choice: Choice, text: string) {
    && InScope(t, cp, found)
    && IsAnswer(t.answer(w, cp.call), choice, text) && choice in cp.offered
    && var prior := Find(journal, cp.id);
       && Agrees(prior, cp, choice) && (prior.Some? ==> !prior.value.acknowledged)
       && (choice == ApproveOnce || MayBeDenied(t, journal, cp))
  }

  /** It plans exactly the decisions that are due. */
  lemma DueIsPlanned(t: Tools, journal: Journal, cp: Checkpoint, found: Lookup, w: Workplace, choice: Choice, text: string)
    requires IsAnswer(t.answer(w, cp.call), choice, text)
    ensures var vetted := Vet(t, journal, cp, found, w);
      && (vetted.Ok? && vetted.value.Intent? <==> IsDue(t, journal, cp, found, w, choice, text))
      && (vetted.Ok? && vetted.value.Intent? ==> IsIntent(t, cp, choice, text, vetted.value.e))
  {
    InScopeExactly(t, cp, found);
    VettingIsExact(t, journal, cp, t.answer(w, cp.call), choice, text);
  }

  // --- a decision from its planning to its receipt ---

  /** The store has the decision, and the checkpoint is still free for it. */
  predicate IsFree(rows: Rows, id: Id) {
    id in rows && rows[id].decision.None?
  }

  /**
  A decision that is due on a checkpoint in the snapshot and that the engine accepts: afterwards the engine
  holds exactly that decision, the journal says that it was acknowledged, the driver will not look at the
  checkpoint again, and no other entry of the journal or the store has changed.
  */
  lemma DueIsDelivered(t: Tools, s: System, id: Id, found: Lookup, choice: Choice, text: string)
    requires s.process.Some? && CanPlan(s.process.value, id) && IsFree(s.rows, id)
    requires IsDue(t, s.journal, CheckpointOf(id, s.process.value.snapshot[id]), found, s.workplace, choice, text)
    ensures var after := Step(t, Step(t, Step(t, s, Plan(id, found)), Submit(Accepted)), Record);
      && after.process == Some(s.process.value.(seen := s.process.value.seen + {id}))
      && id in after.rows
      && after.rows[id].decision == Some(Durable(t.requestId(id, choice), choice, text, t.digest(choice, text)))
      && IsAcknowledged(after.journal, id)
      && (forall other | other != id :: Find(after.journal, other) == Find(s.journal, other))
      && (forall other | other in s.rows && other != id :: other in after.rows && after.rows[other] == s.rows[other])
      && |after.submissions| == |s.submissions| + 1
  {
    var cp := CheckpointOf(id, s.process.value.snapshot[id]);
    DueIsPlanned(t, s.journal, cp, found, s.workplace, choice, text);
    var e := Vet(t, s.journal, cp, found, s.workplace).value.e;
    IntentIsJournaled(t, s, id, found, e);
    var planned := Step(t, s, Plan(id, found));
    var receipt := e.(acknowledged := true, stage := Acknowledged);
    IntentIsAccepted(t, planned, e);
    forall other ensures Find(Upsert(planned.journal, receipt), other) ==
                         if other == id then Some(receipt) else Find(s.journal, other) {
      FindAfterUpsert(s.journal, e, other);
      FindAfterUpsert(planned.journal, receipt, other);
    }
  }

  lemma IntentIsAccepted(t: Tools, s: System, e: Entry)
    requires s.process.Some? && s.process.value.phase.Intending? && s.process.value.phase.intent == e
    requires IsFree(s.rows, e.id)
    ensures var receipt := e.(acknowledged := true, stage := Acknowledged);
      var after := Step(t, Step(t, s, Submit(Accepted)), Record);
      && after.journal == Upsert(s.journal, receipt)
      && after.rows == s.rows[e.id := s.rows[e.id].(decision := Some(DecisionOf(t, e)))]
      && after.process == Some(s.process.value.(seen := s.process.value.seen + {e.id}, phase := Idle))
      && |after.submissions| == |s.submissions| + 1
  {
  }

  /**
  A decision that is not due: a failed check stops the driver and leaves everything else as it was; a
  decision that was acknowledged before is marked as a duplicate and its checkpoint passed over.
  */
  lemma NotDueIsNotPlanned(t: Tools, s: System, id: Id, found: Lookup, vetted: Result<Vetted, Failure>)
    requires s.process.Some? && CanPlan(s.process.value, id)
    requires Vet(t, s.journal, CheckpointOf(id, s.process.value.snapshot[id]), found, s.workplace) == vetted
    ensures vetted.Err? ==> Step(t, s, Plan(id, found)) == s.(process := None)
    ensures vetted.Ok? && vetted.value.Duplicate? ==>
      Step(t, s, Plan(id, found)) == s.(
        journal := Upsert(s.journal, vetted.value.e),
        process := Some(s.process.value.(seen := s.process.value.seen + {id})))
  {
    hide Vet;
  }

  /** The engine takes the decision if it holds none on the checkpoint, or the very same one. */
  predicate Takes(t: Tools, rows: Rows, e: Entry) {
    && e.id in rows
    && match rows[e.id].decision
       case None => true
       case Some(held) => held == Durable(e.requestId, e.choice, e.text, t.digest(e.choice, e.text))
  }

  /**
  A submission leaves its trace whatever comes of it.  The store changes exactly when the engine takes the
  decision and does not lose it, and the driver goes on exactly when it is told so.
  */
  lemma SubmissionIsExact(t: Tools, s: System, e: Entry, w: Workplace, outcome: Outcome)
    requires s.process.Some? && s.process.value.phase == Intending(e, w)
    ensures var after := Step(t, s, Submit(outcome));
      var recorded := Takes(t, s.rows, e) && (outcome.Accepted? || (outcome.Lost? && outcome.recorded));
      && after.submissions == s.submissions + [Submission(e.id, e.call, e.requestId, e.choice, e.text, w, s.journal)]
      && after.journal == s.journal && after.workplace == s.workplace
      && (!recorded ==> after.rows == s.rows)
      && (recorded ==> e.id in s.rows && after.rows == s.rows[e.id := s.rows[e.id].(
            decision := Some(Durable(e.requestId, e.choice, e.text, t.digest(e.choice, e.text))))])
      && (after.process.Some? <==> recorded && outcome.Accepted?)
      && (after.process.Some? ==> after.process.value == s.process.value.(
            phase := Answered(e.(acknowledged := true, stage := Acknowledged))))
  {
  }

  // --- what the driver knows, and what it reports ---

  /** A driver that resumes passes over exactly the acknowledged decisions and has read nothing. */
  lemma ResumedPassesOverAcknowledged(t: Tools, s: System)
    requires s.process.None?
    ensures var after := Step(t, s, Resume);
      && after == s.(process := after.process) && IsIdle(after) && after.process.value.snapshot == map[]
      && forall id :: id in after.process.value.seen <==> exists e :: e in s.journal && e.id == id && e.acknowledged
  {
  }

  /** What it reads are the checkpoints that are pending, as they are stored. */
  lemma FetchedIsPending(t: Tools, s: System)
    requires IsIdle(s)
    ensures var after := Step(t, s, Fetch);
      && after == s.(process := after.process) && IsIdle(after)
      && after.process.value.seen == s.process.value.seen
      && forall id :: (id in after.process.value.snapshot <==> id in s.rows && s.rows[id].pending)
           && (id in after.process.value.snapshot ==> after.process.value.snapshot[id] == s.rows[id])
  {
  }

  /** Reporting marks the entry of the checkpoint when it is an acknowledged denial, and changes nothing else. */
  lemma ReportIsExact(t: Tools, s: System, id: Id)
    requires IsIdle(s)
    ensures var after := Step(t, s, Report(id));
      && after == s.(journal := after.journal)
      && (forall other | other != id :: Find(after.journal, other) == Find(s.journal, other))
      && match Find(s.journal, id)
         case None => Find(after.journal, id).None?
         case Some(e) =>
           Find(after.journal, id) == Some(if e.choice == Deny && e.acknowledged then e.(reported := true) else e)
  {
    var found := Find(s.journal, id);
    FindIsThere(s.journal, id);
    if found.Some? && found.value.choice == Deny && found.value.acknowledged {
      forall other ensures Find(Upsert(s.journal, found.value.(reported := true)), other) ==
                           if other == id then Some(found.value.(reported := true)) else Find(s.journal, other) {
        FindAfterUpsert(s.journal, found.value.(reported := true), other);
      }
    }
  }
}
