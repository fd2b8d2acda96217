/**
Deciding tool checkpoints: an intent is journaled, then submitted, then its receipt is journaled.
After a crash the journaled intents are reconciled with what the engine holds durably.
*/
module ToolDecisions {
  import opened Wrappers
  import opened Text
  import opened Json

  const MAX_DENIALS := 6
  const MAX_REPEATS := 2

  /** A checkpoint id. */
  type Id = string

  datatype Choice = ApproveOnce | Deny | OtherChoice(name: string)

  datatype Call = Call(id: string, fingerprint: string, session: string, name: string, arguments: Fields)

  /** Where a checkpoint says that it belongs. */
  datatype Claim = Claim(taskId: string, project: string, waitingTaskId: string, rootSession: string, anchor: string)

  /** A pending checkpoint as it was read from the store. */
  datatype Checkpoint = Checkpoint(id: Id, call: Call, offered: set<Choice>, claim: Claim)

  /** What the store says about the waiting task, and the canonical identity it resolves to. */
  datatype Task = Task(project: string, role: string, hasShellPrefix: bool)

  datatype Identity = Identity(session: string, anchor: string)

  datatype Lookup = Lookup(task: Option<Task>, identity: Option<Identity>)

  /** The part of the file system that a tool call is judged by: what a path resolves to. */
  datatype Workplace = Workplace(resolve: string -> string)

  /** What the validator says of a tool call; a rejection comes with the feedback for the agent. */
  datatype Verdict = Modelled | Unmodelled(feedback: string)

  datatype Stage = Planned | Acknowledged | RecoveredAfterSubmit

  /** One entry of the journal; `acknowledged` says whether its receipt is an acknowledgement. */
  datatype Entry = Entry(
    id: Id, call: Call, signature: string, choice: Choice, text: string, requestId: string,
    acknowledged: bool, stage: Stage, reported: bool, deduplicated: bool)

  type Journal = seq<Entry>

  /** A decision as the engine keeps it. */
  datatype Durable = Durable(requestId: string, choice: Choice, text: string, hash: string)

  /** A checkpoint row of the engine's store. */
  datatype Row = Row(call: Call, offered: set<Choice>, claim: Claim, pending: bool, decision: Option<Durable>)

  type Rows = map<Id, Row>

  /**
  What the driver computes with: the request id of a decision, the canonical hash of its value, the
  signature of a call, and the validator, which answers from the workplace and the call alone.  The case
  that it drives has one session, one anchor task and a set of roles.
  */
  datatype Tools = Tools(
    requestId: (Id, Choice) -> string, digest: (Choice, string) -> string, signature: Call -> string,
    answer: (Workplace, Call) -> Verdict, session: string, anchor: string, roles: set<string>)

  datatype Failure =
    | LacksIdentity | OtherTask | NoTask | OtherProject | OtherRole | NoIdentity | OtherSession | OtherAnchor
    | SessionDrifted | AnchorDrifted | UnreviewedPrefix
    | NotOffered | Drifted | TooManyDenials | RepeatedCall
    | LostCheckpoint | NoDurableDecision | Conflict

  // --- the journal ---

  function Find(journal: Journal, id: Id): Option<Entry> {
    if journal == [] then None
    else if journal[0].id == id then Some(journal[0]) else Find(journal[1..], id)
  }

  /** Replaces the entry of the checkpoint, or appends one. */
  function Upsert(journal: Journal, e: Entry): Journal {
    if journal == [] then [e]
    else if journal[0].id == e.id then [e] + journal[1..]
    else [journal[0]] + Upsert(journal[1..], e)
  }

  /** The denials of all checkpoints but one. */
  function RejectedElsewhere(journal: Journal, id: Id): Journal {
    if journal == [] then []
    else
      var later := RejectedElsewhere(journal[1..], id);
      if journal[0].choice == Deny && journal[0].id != id then [journal[0]] + later else later
  }

  function Rejected(journal: Journal): Journal {
    if journal == [] then []
    else if journal[0].choice == Deny then [journal[0]] + Rejected(journal[1..])
    else Rejected(journal[1..])
  }

  function Repeats(journal: Journal, signature: string): nat {
    if journal == [] then 0
    else (if journal[0].signature == signature then 1 else 0) + Repeats(journal[1..], signature)
  }

  // --- planning a decision ---

  function ChoiceOf(v: Verdict): Choice {
    if v.Modelled? then ApproveOnce else Deny
  }

  function TextOf(v: Verdict): string {
    if v.Modelled? then "approve_once" else v.feedback
  }

  predicate SameCall(a: Call, b: Call) {
    a.id == b.id && a.fingerprint == b.fingerprint && a.session == b.session
  }

  predicate IsBlank(text: string) {
    Trim(text) == ""
  }

  predicate NamesEverything(cp: Checkpoint) {
    && !IsBlank(cp.call.id) && !IsBlank(cp.call.name) && !IsBlank(cp.call.fingerprint) && !IsBlank(cp.call.session)
    && !IsBlank(cp.claim.waitingTaskId) && !IsBlank(cp.claim.rootSession)
  }

  /** The checks that the checkpoint belongs to this case: to its project, its roles, its session and its anchor. */
  function ScopeFailure(t: Tools, cp: Checkpoint, found: Lookup): Option<Failure> {
    if !NamesEverything(cp) then Some(LacksIdentity)
    else if Trim(cp.claim.taskId) != Trim(cp.claim.waitingTaskId) then Some(OtherTask)
    else if found.task.None? then Some(NoTask)
    else if Trim(found.task.value.project) != Trim(cp.claim.project) then Some(OtherProject)
    else if Trim(found.task.value.role) !in t.roles then Some(OtherRole)
    else if found.identity.None? then Some(NoIdentity)
    else if Trim(found.identity.value.session) != t.session then Some(OtherSession)
    else if t.anchor == "" || Trim(found.identity.value.anchor) != t.anchor then Some(OtherAnchor)
    else if Trim(cp.claim.rootSession) != Trim(found.identity.value.session) then Some(SessionDrifted)
    else if Trim(cp.claim.anchor) != Trim(found.identity.value.anchor) then Some(AnchorDrifted)
    else if cp.call.name == "shell_exec" && found.task.value.hasShellPrefix then Some(UnreviewedPrefix)
    else None
  }

  datatype Vetted = Duplicate(e: Entry) | Intent(e: Entry)

  function IntentOf(t: Tools, cp: Checkpoint, v: Verdict): Entry {
    Entry(cp.id, cp.call, t.signature(cp.call), ChoiceOf(v), TextOf(v), t.requestId(cp.id, ChoiceOf(v)),
          false, Planned, false, false)
  }

  /** The checks of the decision against the options and against the journal. */
  function VetDecision(t: Tools, journal: Journal, cp: Checkpoint, v: Verdict): Result<Vetted, Failure> {
    var prior := Find(journal, cp.id);
    if ChoiceOf(v) !in cp.offered then Err(NotOffered)
    else if prior.Some? && !(SameCall(prior.value.call, cp.call) && prior.value.choice == ChoiceOf(v)) then Err(Drifted)
    else if prior.Some? && prior.value.acknowledged then Ok(Duplicate(prior.value.(deduplicated := true)))
    else
      var rejected := RejectedElsewhere(journal, cp.id);
      if v.Unmodelled? && |rejected| >= MAX_DENIALS then Err(TooManyDenials)
      else if v.Unmodelled? && Repeats(rejected, t.signature(cp.call)) >= MAX_REPEATS then Err(RepeatedCall)
      else Ok(Intent(IntentOf(t, cp, v)))
  }

  /** The checks of `_approve_tool_checkpoint` before anything is journaled or submitted. */
  function Vet(t: Tools, journal: Journal, cp: Checkpoint, found: Lookup, w: Workplace): Result<Vetted, Failure> {
    var failure := ScopeFailure(t, cp, found);
    if failure.Some? then Err(failure.value) else VetDecision(t, journal, cp, t.answer(w, cp.call))
  }

  // --- reconciling ---

  function DecisionOf(t: Tools, e: Entry): Durable {
    Durable(e.requestId, e.choice, e.text, t.digest(e.choice, e.text))
  }

  function Recovered(e: Entry): Entry {
    e.(acknowledged := true, stage := RecoveredAfterSubmit)
  }

  /** One unacknowledged intent against the store: it is recovered only if it matches exactly. */
  function Recover(t: Tools, e: Entry, rows: Rows): Result<Entry, Failure> {
    if e.acknowledged then Ok(e)
    else if e.id !in rows then Err(LostCheckpoint)
    else if !SameCall(rows[e.id].call, e.call) then Err(Drifted)
    else if rows[e.id].decision.None? then (if rows[e.id].pending then Ok(e) else Err(NoDurableDecision))
    else if rows[e.id].decision.value != DecisionOf(t, e) then Err(Conflict)
    else Ok(Recovered(e))
  }

  /** The journal once the first `upTo` entries have been reconciled, or those before the first failure. */
  function Reconciled(t: Tools, journal: Journal, rows: Rows, upTo: nat): (Journal, Option<Failure>) {
    if journal == [] || upTo == 0 then (journal, None)
    else
      var first := Recover(t, journal[0], rows);
      if first.Err? then (journal, Some(first.error))
      else
        var (later, failure) := Reconciled(t, journal[1..], rows, upTo - 1);
        ([first.value] + later, failure)
  }

  // --- runs ---

  datatype Phase =
    | Idle
    | Intending(intent: Entry, workplace: Workplace)
    | Answered(receipt: Entry)

  /**
  The driver: the checkpoints it will not look at again, the pending ones as it last read them, and where
  it stands in its current decision.
  */
  datatype Process = Process(seen: set<Id>, snapshot: Rows, phase: Phase)

  /** A submission, with what was journaled when it was made and the workplace by which it was judged. */
  datatype Submission = Submission(
    id: Id, call: Call, requestId: string, choice: Choice, text: string, workplace: Workplace, journal: Journal)

  /** How a submission ends; when the answer is lost the engine may or may not have recorded the decision. */
  datatype Outcome = Accepted | Refused | Lost(recorded: bool)

  datatype System = System(
    journal: Journal, rows: Rows, workplace: Workplace, process: Option<Process>, submissions: seq<Submission>)

  /**
  The driver (re)starts or dies, reconciles, reads the pending checkpoints, plans a decision on one of
  them, submits it, journals the receipt, or reports a resolved denial.  In between the engine changes its
  store and the agents change the workplace.
  */
  datatype Action =
    | Resume
    | Crash
    | Reconcile(upTo: nat)
    | Fetch
    | Plan(id: Id, found: Lookup)
    | Submit(outcome: Outcome)
    | Record
    | Report(id: Id)
    | Engine(rows: Rows)
    | Change(workplace: Workplace)

  /** The engine keeps the first durable decision of a checkpoint. */
  predicate KeepsDecisions(before: Rows, after: Rows) {
    forall id | id in before && before[id].decision.Some? :: id in after && after[id].decision == before[id].decision
  }

  function AcknowledgedIds(journal: Journal): set<Id> {
    set e | e in journal && e.acknowledged :: e.id
  }

  function PendingIn(rows: Rows): Rows {
    map id | id in rows && rows[id].pending :: rows[id]
  }

  function CheckpointOf(id: Id, row: Row): Checkpoint {
    Checkpoint(id, row.call, row.offered, row.claim)
  }

  predicate CanPlan(p: Process, id: Id) {
    p.phase.Idle? && id !in p.seen && id in p.snapshot
  }

  function AfterPlan(t: Tools, s: System, id: Id, found: Lookup): System
    requires s.process.Some? && CanPlan(s.process.value, id)
  {
    var p := s.process.value;
    var vetted := Vet(t, s.journal, CheckpointOf(id, p.snapshot[id]), found, s.workplace);
    if vetted.Err? then s.(process := None)
    else
      var e := vetted.value.e;
      s.(journal := Upsert(s.journal, e),
         process := Some(if vetted.value.Intent? then p.(phase := Intending(e, s.workplace))
                         else p.(seen := p.seen + {id})))
  }

  /** The engine acknowledges a decision only if it is the durable one. */
  predicate CanAccept(t: Tools, rows: Rows, e: Entry) {
    e.id in rows && (rows[e.id].decision.None? || rows[e.id].decision.value == DecisionOf(t, e))
  }

  function Decided(t: Tools, rows: Rows, e: Entry): Rows
    requires e.id in rows
  {
    rows[e.id := rows[e.id].(decision := Some(DecisionOf(t, e)))]
  }

  function AfterSubmit(t: Tools, s: System, outcome: Outcome): System
    requires s.process.Some? && s.process.value.phase.Intending?
  {
    var e, w := s.process.value.phase.intent, s.process.value.phase.workplace;
    var last := Submission(e.id, e.call, e.requestId, e.choice, e.text, w, s.journal);
    var sent := s.(submissions := s.submissions + [last]);
    if outcome.Accepted? && CanAccept(t, s.rows, e) then
      sent.(rows := Decided(t, s.rows, e),
            process := Some(s.process.value.(phase := Answered(e.(acknowledged := true, stage := Acknowledged)))))
    else if outcome.Lost? && outcome.recorded && CanAccept(t, s.rows, e) then
      sent.(rows := Decided(t, s.rows, e), process := None)
    else sent.(process := None)
  }

  function Reported(journal: Journal, id: Id): Journal {
    var e := Find(journal, id);
    if e.Some? && e.value.choice == Deny && e.value.acknowledged then Upsert(journal, e.value.(reported := true))
    else journal
  }

  predicate IsIdle(s: System) {
    s.process.Some? && s.process.value.phase.Idle?
  }

  function Step(t: Tools, s: System, a: Action): System {
    match a
    case Resume => if s.process.None? then s.(process := Some(Process(AcknowledgedIds(s.journal), map[], Idle))) else s
    case Crash => s.(process := None)
    case Reconcile(upTo) =>
      if !IsIdle(s) then s
      else
        var (journal, failure) := Reconciled(t, s.journal, s.rows, upTo);
        s.(journal := journal, process := if failure.Some? then None else s.process)
    case Fetch =>
      if IsIdle(s) then s.(process := Some(s.process.value.(snapshot := PendingIn(s.rows)))) else s
    case Plan(id, found) =>
      if s.process.Some? && CanPlan(s.process.value, id) then AfterPlan(t, s, id, found) else s
    case Submit(outcome) =>
      if s.process.None? || !s.process.value.phase.Intending? then s else AfterSubmit(t, s, outcome)
    case Record =>
      if s.process.None? || !s.process.value.phase.Answered? then s
      else
        var e := s.process.value.phase.receipt;
        s.(journal := Upsert(s.journal, e),
           process := Some(s.process.value.(seen := s.process.value.seen + {e.id}, phase := Idle)))
    case Report(id) => if IsIdle(s) then s.(journal := Reported(s.journal, id)) else s
    case Engine(rows) => if KeepsDecisions(s.rows, rows) then s.(rows := rows) else s
    case Change(workplace) => s.(workplace := workplace)
  }

  /** The state after a run that starts in the workplace `w` with nothing journaled. */
  function Run(t: Tools, w: Workplace, actions: seq<Action>): System {
    if actions == [] then System([], map[], w, None, [])
    else Step(t, Run(t, w, actions[..|actions| - 1]), actions[|actions| - 1])
  }
}
