# Verified model of AutoSwarm's stateful cores

A Dafny model of the parts of AutoSwarm whose claims span many calls, many coroutines or many process
lives, with proofs about all inputs and all runs:

- **Shutdown and admission of running tasks** (`opc/core/active_task_runs.py`).  `AdmissionRegistry` is the
  state and its operations on values, `ActiveTaskRuns` the class proved against it, `ShutdownProtocol` every
  interleaving of coroutines over it, `ShutdownTheorems` what holds in all of them, `ShutdownRefinement` that each step
  does exactly what a specification over the log alone says, and `ShutdownJoins` which failures the shutdown joins raise.
- **The crash-safe config overlay** (`scripts/issue35_company_e2e.py`).  `Base64` and `OverlayJournal` are the
  recovery journal, `OverlayProtocol` the atomic writes of each operation and the runs with a crash after any of
  them, `OverlayTheorems` the guarantees, `ShellReviewOverlay` the object itself, which may die at any write.
- **Tool decisions** (same script).  `ToolDecisions` plans, submits, acknowledges and reconciles, with crashes and
  resumes, in a workplace that may change in between; `ToolDecisionTheorems` is about all such runs and
  `ToolDecisionPlanning` about which decisions are planned, `CaseRun` is the driver with its record, `ToolPolicy` the
  validator of file tools and `DecisionRequest` the request ids.  `ToolLedger` is the closure check over calls and
  results, `ToolLedgerReading` says of the stored rows when it succeeds.
- **Stored organizations** (`opc/core/config.py`, `opc/core/org_config.py`).  `OrganizationIds` is the slug pipeline,
  `OrganizationSlugs` what it makes of a name, `IdAllocation` the search for a free id; `CompanyOrgs`,
  `CompanyOrgTheorems` and `CompanyConfig` are the migrations that loading performs on the files, `CompanyOrgLoading`
  what it returns.
- **Employees** (`opc/core/employee_registry.py`).  `EmployeeRecords`, `EmployeeTheorems`, `EmployeeDetails` and
  `EmployeeRegistry` normalize, merge and file employees; `EvolutionMerge` and `EvolutionTheorems` follow the counters
  that move along aliases in all profile files, `EvolutionRoutes` says where records end up.
- **Loops over lists and texts**: `SessionParts` over `GreedyPairing`, and `SessionPartReading`
  (`opc/core/session_parts.py`), `PermissionScope` and `PermissionPolicy` (`opc/core/native_permissions.py`),
  `ReviewVerdict` and `ReviewReading` (`opc/core/review_verdict.py`), `MessageSplit` (`opc/channels/telegram.py`) and
  `DuplicateWindow` (`opc/channels/whatsapp.py`, `opc/channels/qq.py`).

`Wrappers`, `Text` and `Json` are shared: results, Python's `strip`, and dynamically typed values.

Where the source updates fields, files or lists in place, a class or a method with a loop does so here, and its
postcondition equates the new state with a function of the old one; the theorems are lemmas about these functions
and about runs of them.  Coroutines are interrupted only where the source awaits, so every stretch between two awaits is one
step.  Clocks, uuids and the coroutine at work are parameters.

## Where the code does less than its documentation suggests

- Loading the corporate organization twice is not always loading it once.  A custom organization in the corporate slot
  that cannot be replaced there (the legacy corporate files cannot be read, or the index has a schema version that is
  no number) is archived again, under another id, by every load.  `CompanyOrgTheorems.LoadingTwiceIsLoadingOnce` gives the
  exact condition, `CompanyOrgTheorems.ArchivingCanRepeat` an instance.
- Migrating evolution records can lose counters: a record dropped because it meets a value that is neither a record nor
  empty, or replaced because it meets a list, takes its nested counters with it.  `EvolutionTheorems.ConservedExactlyUnlessLost`
  is the exact condition, `EvolutionTheorems.NestedCountCanBeLost` an instance.
- Normalizing employees is not always idempotent: a blank legacy id survives when the record that holds it has no visible one,
  and disappears on the next pass once it has been merged with a visible one.  `EmployeeTheorems.NormalizingTwiceIsOnce`
  is the exact condition, `EmployeeTheorems.BlankLegacyIdsShowUpLater` an instance.
- A shutdown join can return normally although a recorded failure was never raised.  When a gather raises the failure of an
  owner it waited for, it clears the whole list, and with it the failures of owners of other projects.
  `ShutdownJoins.RecordedFailureIsRaisedUnlessDropped` is the exact condition, `ShutdownJoins.FailureCanBeLost` a run in which
  this happens, `ShutdownJoins.FailuresAreAccountedFor` the account of all failures.
- One tool checkpoint can be submitted with two different texts: the feedback is worked out anew on every attempt, and the
  journaled text with it, and the feedback to a refused write quotes what its path resolves to.  Request id and option never
  change.  `ToolDecisionTheorems.OneTextPerCheckpoint` shows one text as long as the call and the validator's answer stay;
  `ToolPolicy.TextFollowsThePath` says exactly when a refused write gets the same text again, and `ToolPolicy.TextCanDrift`
  is a run in which it does not, because the path is a symbolic link that has been pointed elsewhere.
- The two duplicate windows differ on blank ids: one channel lets every message without an id through, the other treats the
  blank id like any other and drops its repeats.  The blank id also takes a place in its window, so that another id can leave
  it earlier.  `DuplicateWindow.WindowsAgree` is the exact condition, `DuplicateWindow.BlankIdsTellThemApart` an instance.
- An organization that is written without a schema version, but with another kind, is filed with the current version, for
  which that kind is not supported: it cannot be loaded again.  `CompanyOrgLoading.LoadUndoesWrite` is the exact condition.
- Normalizing a review verdict twice adds two empty lists when the first one was a plain text
  (`ReviewVerdict.NormalizingIsIdempotent`).

## Model

| member | source | states |
|---|---|---|
| `ActiveTaskRuns.ActiveTaskRunRegistry.constructor` | opc/core/active_task_runs.py:40-54 | a new registry is empty, open and drained |
| `ActiveTaskRuns.ActiveTaskRunRegistry.Register` | opc/core/active_task_runs.py:64-92 | refused exactly when closed without pending handoff or live driver; otherwise adds one attempt and settles the bound handoff |
| `ActiveTaskRuns.ActiveTaskRunRegistry.BindAttemptTask` | opc/core/active_task_runs.py:94-110 | an owner is attached only to a live attempt |
| `ActiveTaskRuns.ActiveTaskRunRegistry.AttemptOwnerFinished` | opc/core/active_task_runs.py:112-126 | a failure after the close is recorded once per owner, cancellations never |
| `ActiveTaskRuns.ActiveTaskRunRegistry.CancelOwners` | opc/core/active_task_runs.py:163-181 | one turn of the shutdown join: report the oldest failure, finish, or wait for the other live owners in scope |
| `ActiveTaskRuns.ActiveTaskRunRegistry.OwnersGathered` | opc/core/active_task_runs.py:182-196 | the first result that is a failure is raised and clears the record |
| `ActiveTaskRuns.ActiveTaskRunRegistry.BindDriverAttempt` | opc/core/active_task_runs.py:198-215 | only a live attempt becomes a driver |
| `ActiveTaskRuns.ActiveTaskRunRegistry.ReserveHandoff` | opc/core/active_task_runs.py:217-232 | one reference, and the drained event cleared; refused once closed |
| `ActiveTaskRuns.ActiveTaskRunRegistry.BindHandoff` | opc/core/active_task_runs.py:234-244 | only a pending handoff is bound |
| `ActiveTaskRuns.ActiveTaskRunRegistry.RetainCurrentHandoff` | opc/core/active_task_runs.py:246-253 | one more reference to the bound pending handoff, if any |
| `ActiveTaskRuns.ActiveTaskRunRegistry.ReleaseCurrentHandoff` | opc/core/active_task_runs.py:255-261 | releases the bound pending handoff and no other |
| `ActiveTaskRuns.ActiveTaskRunRegistry.ReleaseHandoff` | opc/core/active_task_runs.py:263-273 | drops one reference; the last one settles |
| `ActiveTaskRuns.ActiveTaskRunRegistry.RevokeHandoff` | opc/core/active_task_runs.py:275-289 | settles at once, whatever the count |
| `ActiveTaskRuns.ActiveTaskRunRegistry.SettleHandoff` | opc/core/active_task_runs.py:311-314 | the token goes; the event is set when none is left |
| `ActiveTaskRuns.ActiveTaskRunRegistry.CloseAdmission` | opc/core/active_task_runs.py:320-323 | closes admission and changes nothing else |
| `ActiveTaskRuns.ActiveTaskRunRegistry.Unregister` | opc/core/active_task_runs.py:363-377 | removes one attempt with its owner, and the entry with its last attempt |
| `ActiveTaskRuns.ActiveTaskRunRegistry.IsActive` | opc/core/active_task_runs.py:379-380 | active exactly while some attempt is registered |
| `ActiveTaskRuns.ActiveTaskRunRegistry.ActiveTaskIds` | opc/core/active_task_runs.py:382-388 | exactly the ids of the project with a registered attempt |
| `ShutdownTheorems.EveryAttemptDescendsFromBeforeTheClose` | opc/core/active_task_runs.py:64-92 | in every run each registration descends, through drivers live at the time, from an attempt or handoff admitted before the close |
| `ShutdownTheorems.QuietIsAbsorbing` | opc/core/active_task_runs.py:198-232 | closed, drained and idle stays so: nothing is registered, reserved, retained or bound ever after |
| `ShutdownTheorems.ReferenceCountIsExact` | opc/core/active_task_runs.py:246-273 | a pending handoff has one plus its retains minus its releases |
| `ShutdownTheorems.DrainedExactlyWhenNothingPends` | opc/core/active_task_runs.py:311-314 | the drained event is set exactly when no handoff is pending |
| `ShutdownTheorems.EndedNeverPendsAgain` | opc/core/active_task_runs.py:263-289 | a settled or revoked token is never pending again |
| `ShutdownTheorems.PendingOnlyShrinksAfterClose` | opc/core/active_task_runs.py:320-340 | after the close the pending set only shrinks |
| `ShutdownTheorems.DrainReturnIsFinal` | opc/core/active_task_runs.py:325-336 | the wait returns only with nothing pending, and nothing pends afterwards |
| `ShutdownTheorems.AttemptCountIsExact` | opc/core/active_task_runs.py:363-391 | attempts are registrations minus successful unregistrations |
| `ShutdownTheorems.OwnersAreLive` | opc/core/active_task_runs.py:81-110 | owner entries exist for live attempts only, each under one key |
| `ShutdownRefinement.RegistryRefinesTheLog` | opc/core/active_task_runs.py:64-391 | in every run the registry does and refuses, step by step, exactly what a specification does that knows nothing but the log, the bound contexts and the coroutines that wait |
| `ShutdownRefinement.AdmissionIsExact` | opc/core/active_task_runs.py:64-92 | in every run a new attempt on a named task enters if and only if admission is open, or the coroutine has on top a handoff of this registry that is reserved and neither settled nor revoked, or on top a driver that is live; a refusal logs nothing |
| `ShutdownRefinement.KeysAreNames` | opc/core/active_task_runs.py:56-62 | a task has a key exactly when its name has a visible character; both names are stripped, and a blank project is the default one |
| `ShutdownJoins.EveryRunIsFair` | opc/core/active_task_runs.py:151-196 | in every run the list holds exactly the recorded failures that no join has taken off; a raise from it is of the oldest, and a normal return finds it empty |
| `ShutdownJoins.JoinReturnsOnlyWhenIdle` | opc/core/active_task_runs.py:151-196 | whenever a join returns, every owner bound in its scope whose attempt is still registered has ended or is the caller, and no recorded failure is listed |
| `ShutdownJoins.RecordedFailureIsRaisedUnlessDropped` | opc/core/active_task_runs.py:112-196 | a recorded failure is raised before any later normal return, as it leaves the list, if and only if no gather raised another owner's failure while it was listed |
| `ShutdownJoins.FailureCanBeLost` | opc/core/active_task_runs.py:182-196 | a run with two projects in which a join returns and a recorded failure was never raised |
| `ShutdownJoins.FailuresAreAccountedFor` | opc/core/active_task_runs.py:112-196 | the failures recorded are those popped, those cleared by gathers and those still listed |
| `Base64.DecodeUndoesEncode` | scripts/issue35_company_e2e.py:2854-2868 | decoding an encoded byte string gives it back |
| `Base64.CanonicalIsEncoded` | scripts/issue35_company_e2e.py:2854-2868 | a text is accepted for given bytes if and only if it is their encoding |
| `Base64.StrayBitsAreIgnored` | scripts/issue35_company_e2e.py:2859-2867 | without the second encoding several texts would decode to one byte string |
| `Base64.EncodingIsStandard` | scripts/issue35_company_e2e.py:2854-2868 | three bytes are written as the four base-64 digits of their number, in the alphabet of table 1 of RFC 4648; a shorter end in the digits it needs, zero bits and padding |
| `OverlayJournal.StrictJsonObject` | scripts/issue35_company_e2e.py:2841-2852 | an object is accepted exactly when no member is repeated, and then keeps every member |
| `OverlayJournal.ReaderUndoesWriter` | scripts/issue35_company_e2e.py:2951-3131 | a written journal reads back as the same original, mode and forms |
| `OverlayJournal.ReadsOnlyTheWritten` | scripts/issue35_company_e2e.py:2951-3054 | an accepted version 2 journal has exactly the members that the writer writes for what was read |
| `OverlayJournal.ReadsTheWritten` | scripts/issue35_company_e2e.py:2951-3054 | the members written for any original, mode and forms are accepted with these values |
| `OverlayJournal.LegacyJournalReadsTheSame` | scripts/issue35_company_e2e.py:2965-3054 | version 1 and version 2 journals of one original read back as the same values, with the permission bits of the mode |
| `OverlayJournal.ReadsOnlyTheLegacy` | scripts/issue35_company_e2e.py:2965-3054 | an accepted version 1 journal has exactly the members that version wrote, for some mode with the bits that were read |
| `OverlayJournal.PermissionsAreLastBits` | scripts/issue35_company_e2e.py:2984-2996 | the permission bits of a mode are its last twelve |
| `OverlayJournal.AcceptedFormsAreRecomputed` | scripts/issue35_company_e2e.py:3006-3046 | the forms of any accepted journal are those recomputed from its original |
| `OverlayProtocol.OverlayReadsBack` | scripts/issue35_company_e2e.py:2951-3131 | the journal of this protocol meets the law that the theorems about runs use |
| `ShellReviewOverlay.ConfigDirectory.Make` | scripts/issue35_company_e2e.py:2617-2627 | an atomic write happens entirely or, when the process dies, not at all |
| `ShellReviewOverlay.ShellReviewOverlay.constructor` | scripts/issue35_company_e2e.py:2829-2835 | a new object remembers nothing |
| `ShellReviewOverlay.ShellReviewOverlay.ReadJournal` | scripts/issue35_company_e2e.py:2951-3054 | gives what the journal file holds, or the error |
| `ShellReviewOverlay.ShellReviewOverlay.RestoreOriginal` | scripts/issue35_company_e2e.py:3056-3068 | config first, then the journal, with a crash possible after either |
| `ShellReviewOverlay.ShellReviewOverlay.RecoverInterruptedInstall` | scripts/issue35_company_e2e.py:3070-3095 | makes exactly the recovery writes up to its death, and none when it refuses |
| `ShellReviewOverlay.ShellReviewOverlay.InstallFresh` | scripts/issue35_company_e2e.py:3100-3151 | journal, then overlay; undone when the policy check fails |
| `ShellReviewOverlay.ShellReviewOverlay.Install` | scripts/issue35_company_e2e.py:3097-3151 | recovery, then installation, as one sequence of writes cut off at its death |
| `ShellReviewOverlay.ShellReviewOverlay.Restore` | scripts/issue35_company_e2e.py:3153-3175 | restores only its own overlay, and writes nothing when it refuses |
| `OverlayTheorems.EveryRunIsSafe` | scripts/issue35_company_e2e.py:3056-3175 | in every run, at every crash point, the journal gives back the owner's config, or the config is the owner's |
| `OverlayTheorems.ChangedConfigIsJournaled` | scripts/issue35_company_e2e.py:3097-3137 | a config that is not the owner's always has a journal with the owner's bytes and mode |
| `OverlayTheorems.RecoveryEndsAtBaseline` | scripts/issue35_company_e2e.py:3070-3095 | recovery succeeds exactly on a recognized config, ends at the owner's bytes and mode without a journal, and is idempotent |
| `OverlayTheorems.UntamperedRecoverySucceeds` | scripts/issue35_company_e2e.py:3070-3095 | it never refuses as long as nobody edits an installed overlay |
| `OverlayTheorems.UntamperedRestoreSucceeds` | scripts/issue35_company_e2e.py:3153-3175 | nor does restoring fail then, raw or normalized |
| `OverlayTheorems.NothingIsLost` | scripts/issue35_company_e2e.py:3056-3175 | after any installs, rewrites, restores and crashes recovery gets the first disk back |
| `OverlayTheorems.InstallationTakesEffect` | scripts/issue35_company_e2e.py:3097-3143 | a successful installation leaves the raw overlay with the owner's mode, and a journal |
| `OverlayTheorems.InstallationEnds` | scripts/issue35_company_e2e.py:3070-3151 | how an installation ends from every reachable state: the obstacle that stops it changes nothing, a rejected policy leaves the owner's config without a journal and nothing installed, and otherwise the overlay is there |
| `OverlayTheorems.InstallationSucceedsExactly` | scripts/issue35_company_e2e.py:3097-3143 | it succeeds if and only if nothing is installed, the config is there and recognized, it has overlay forms and the policy holds |
| `OverlayTheorems.RejectedInstallationIsUndone` | scripts/issue35_company_e2e.py:3138-3151 | after a rejected policy the disk is the owner's config without a journal, the failure is reported and nothing is installed |
| `OverlayTheorems.RestorationEnds` | scripts/issue35_company_e2e.py:3153-3175 | a restoration puts the owner's config back exactly when the process has an overlay installed and the config is one of its forms; otherwise it changes nothing |
| `OverlayTheorems.RestoringIsExact` | scripts/issue35_company_e2e.py:3153-3175 | from any disk and memory, reachable or not: it restores exactly when the journal has the original and mode remembered and the config is a form of that overlay, and otherwise writes nothing |
| `CaseRun.CaseRun.UpsertToolDecision` | scripts/issue35_company_e2e.py:5186-5194 | replaces the entry of the checkpoint or appends one, and saves |
| `CaseRun.CaseRun.PlanDecision` | scripts/issue35_company_e2e.py:4209-4416 | the intent is saved, after all checks of scope, option, journal and bounds; a failed check changes nothing |
| `CaseRun.CaseRun.SubmitIntent` | scripts/issue35_company_e2e.py:4415-4435 | submits what was journaled, and journals the receipt only of an acknowledged submission |
| `CaseRun.CaseRun.DecideCheckpoint` | scripts/issue35_company_e2e.py:5256-5285 | one turn of the loop over pending checkpoints: journal, store, submissions and survival are those of planning, submitting and recording in the run model |
| `CaseRun.CaseRun.FetchPending` | scripts/issue35_company_e2e.py:5245-5251 | reads the pending checkpoints, as the run model does |
| `CaseRun.CaseRun.ReconcilePlanned` | scripts/issue35_company_e2e.py:4438-4529 | every intent that the store holds is recovered, each saved, up to the first entry that mismatches its row |
| `ToolDecisionTheorems.EveryRunIsSound` | scripts/issue35_company_e2e.py:4199-4529 | the invariant of all runs with crashes and resumes |
| `ToolDecisionTheorems.SubmissionsAgree` | scripts/issue35_company_e2e.py:4387-4430 | every submission is the intent journaled before it; one checkpoint keeps its tool call identity, request id and option, and its text exactly when the validator's answers at the two plannings call for the same |
| `ToolDecisionTheorems.OneTextPerCheckpoint` | scripts/issue35_company_e2e.py:4316-4430 | all submissions of a checkpoint carry one call, option and text as long as its stored call and the answer of the validator stay the same, over any crashes and resumes |
| `ToolDecisionTheorems.AcknowledgedIsFinal` | scripts/issue35_company_e2e.py:4329-4349 | an acknowledged decision never changes and is never submitted again |
| `ToolDecisionTheorems.AcknowledgedIsDurable` | scripts/issue35_company_e2e.py:4487-4529 | what the journal calls acknowledged is the durable decision of the engine |
| `ToolDecisionTheorems.DenialsAreBounded` | scripts/issue35_company_e2e.py:4350-4373 | never more than 6 denials, nor more than 2 with one signature |
| `ToolDecisionTheorems.ReconcileIsSound` | scripts/issue35_company_e2e.py:4438-4529 | reconciling recovers only intents that match the durable decision exactly |
| `ToolDecisionTheorems.RecoverIsExact` | scripts/issue35_company_e2e.py:4461-4529 | an entry is recovered exactly when it is not acknowledged and the store holds its very decision on its call; it stays exactly when it was acknowledged or its checkpoint still waits; and which failure each other state gives |
| `ToolDecisionTheorems.ReconcileIsComplete` | scripts/issue35_company_e2e.py:4438-4529 | reconciling goes through if and only if no entry mismatches its row, and then every intent that the store holds comes back acknowledged as recovered and every other entry as it was |
| `ToolDecisionTheorems.ReconcileStopsAtTheFirst` | scripts/issue35_company_e2e.py:4438-4529 | otherwise it stops at the first entry that mismatches, with the reason, and what came before stays recovered |
| `ToolDecisionTheorems.HeldIntentIsRecovered` | scripts/issue35_company_e2e.py:4438-4529 | in every run in which a driver is gone while the store holds the decision of its intent, the next resume and reconciliation acknowledge it, or stop at an entry that mismatches |
| `ToolDecisionTheorems.LostAnswerIsRecovered` | scripts/issue35_company_e2e.py:4415-4529 | the same when the answer to a submission is lost after the engine has recorded it |
| `ToolDecisionPlanning.ScopeIsExact` | scripts/issue35_company_e2e.py:4224-4315 | a checkpoint is in scope if and only if it meets all eleven conditions; the failure is that of the first one that it does not meet |
| `ToolDecisionPlanning.VettingIsExact` | scripts/issue35_company_e2e.py:4316-4373 | which decision is refused, a duplicate or a new intent, by the offered options, the journaled entry and the number of denials |
| `ToolDecisionPlanning.DenialsAreCounted` | scripts/issue35_company_e2e.py:4350-4361 | the bound is on the number of entries of other checkpoints that were denied |
| `ToolDecisionPlanning.RepeatsAreCounted` | scripts/issue35_company_e2e.py:4362-4373 | the other bound is on the number of those with the signature of the call |
| `ToolDecisionPlanning.DueIsPlanned` | scripts/issue35_company_e2e.py:4199-4414 | an intent is planned if and only if the checkpoint is in scope, its option offered, its entry agrees and is not acknowledged, and a denial is within the bounds; it carries the answer of the validator |
| `ToolDecisionPlanning.NotDueIsNotPlanned` | scripts/issue35_company_e2e.py:4224-4373 | a failed check stops the driver and changes nothing; a duplicate is marked and passed over |
| `ToolDecisionPlanning.SubmissionIsExact` | scripts/issue35_company_e2e.py:4415-4435 | the store changes exactly when the engine takes the decision and records it, and the driver goes on exactly when it is told so |
| `ToolDecisionPlanning.DueIsDelivered` | scripts/issue35_company_e2e.py:5256-5285 | a due decision that the engine accepts ends up as that decision in the store and acknowledged in the journal, and no other entry or row changes |
| `ToolDecisionPlanning.ResumedPassesOverAcknowledged` | scripts/issue35_company_e2e.py:5175-5185 | a driver that resumes passes over exactly the acknowledged checkpoints |
| `ToolDecisionPlanning.FetchedIsPending` | scripts/issue35_company_e2e.py:5245-5251 | it reads exactly the pending checkpoints, as they are stored |
| `ToolDecisionPlanning.ReportIsExact` | scripts/issue35_company_e2e.py:5293-5324 | reporting marks an acknowledged denial, and no other entry |
| `ToolDecisionTheorems.AttemptsAreSubmitted` | scripts/issue35_company_e2e.py:4374-4415 | a denial whose submission was lost is submitted again with what the validator answers in the workplace at that time |
| `ToolPolicy.ApprovedFilesAreInside` | scripts/issue35_company_e2e.py:2202-2226 | approved writes go to required files only, approved reads and searches stay in the workplace |
| `ToolPolicy.FilesAreApprovedExactly` | scripts/issue35_company_e2e.py:2187-2227 | a read or search is approved if and only if its path resolves into the workplace, a write if and only if a required file resolves to the same place besides |
| `ToolPolicy.RefusedWriteIsTold` | scripts/issue35_company_e2e.py:2187-2226 | the feedback to a refused write names the path that leaves the workplace, or the place that is not to be written |
| `ToolPolicy.AnswersAgree` | scripts/issue35_company_e2e.py:2187-2226 | a write gets the same answer and feedback in two workplaces if and only if its path stands alike in both |
| `ToolPolicy.TextFollowsThePath` | scripts/issue35_company_e2e.py:4316-4415 | a refused write is submitted again with the same text if and only if its path still stands alike |
| `ToolPolicy.TextCanDrift` | scripts/issue35_company_e2e.py:4374-4415 | a run with two texts: the path is a link that points to another file at the second attempt |
| `DecisionRequest.LoopIdsNameTheOption` | scripts/issue35_company_e2e.py:2445-2453 | the made-up id of the loop gets the option that was taken, whatever the ids contain |
| `DecisionRequest.RequestIdsAreDistinct` | scripts/issue35_company_e2e.py:2445-2453 | equal request ids of one session mean the same checkpoint and option |
| `DecisionRequest.RequestIdIsExact` | scripts/issue35_company_e2e.py:2445-2453 | any id is stripped; the text behind its last colon is replaced exactly when the id has the prefix and that text is one of the two options |
| `DecisionRequest.OneRequestIdPerCheckpoint` | scripts/issue35_company_e2e.py:5271-5285 | in every run two submissions share a request id exactly when they share the checkpoint |
| `ToolLedger.NativeToolLedgerClosure` | scripts/issue35_company_e2e.py:6484-6570 | succeeds exactly when the ledger closes, with one row per call; an error names a real violation |
| `ToolLedger.CloseLedger` | scripts/issue35_company_e2e.py:6495-6570 | the same for attempts with stripped identities |
| `ToolLedger.CloseAttempt` | scripts/issue35_company_e2e.py:6505-6569 | one attempt: every call has one result, and no result is an orphan |
| `ToolLedger.CallsAndResultsCorrespond` | scripts/issue35_company_e2e.py:6519-6569 | calls and results of a closing ledger correspond one to one |
| `ToolLedger.EvidenceCountsCalls` | scripts/issue35_company_e2e.py:6542-6551 | one evidence row per call, over all attempts |
| `ToolLedger.IdentitiesAreDistinct` | scripts/issue35_company_e2e.py:6508-6541 | no two rows share a call identity or a result identity |
| `ToolLedgerReading.AttemptClosesExactly` | scripts/issue35_company_e2e.py:6505-6569 | an attempt closes if and only if its session, calls and records have visible names of their own and its stored calls and results can be paired off by id and name, with nothing left over |
| `ToolLedgerReading.LedgerClosesExactly` | scripts/issue35_company_e2e.py:6484-6570 | the ledger closes if and only if every attempt does and no two have one session |
| `ToolLedgerReading.RowsAreExact` | scripts/issue35_company_e2e.py:6542-6551 | the row of each call, in its place, names session, task, role and call, and the record of the result that answers it |
| `OrganizationIds.SlugifyGivesSlug` | opc/core/config.py:144-157 | any name and fallback give 1 to 64 slug characters, without double underscore and with alphanumeric ends |
| `OrganizationIds.SlugifyIsIdempotent` | opc/core/config.py:144-157 | slugifying twice is slugifying once |
| `OrganizationIds.SlugIsKept` | opc/core/config.py:144-157 | a slug is its own slug |
| `OrganizationIds.SlugKeepsLettersAndDigits` | opc/core/config.py:144-157 | the slug has the letters and digits of the name in order, all of them when they fit |
| `OrganizationSlugs.CleanedIsOnePass` | opc/core/config.py:150-156 | the substitutions one after the other do what one pass does that turns foreign characters into underscores and keeps one of each run |
| `OrganizationSlugs.SlugIsExact` | opc/core/config.py:144-157 | the slug is that of the name, of the fallback only when nothing is left of the name, and "org" only when nothing is left of either; cut at 64 characters and stripped |
| `IdAllocation.FileNamesNameIds` | opc/core/config.py:167-173 | a file name names exactly the valid id it was built from |
| `IdAllocation.IdsHaveFiles` | opc/core/config.py:248-266 | the listed ids are exactly those with a file |
| `IdAllocation.SavedFilesAreCounted` | opc/core/org_config.py:62-72 | a saved or runtime file of an id that is not reserved keeps the id taken |
| `IdAllocation.NextIdsDiffer` | opc/core/config.py:271-275 | numbered variants differ, however the candidate is cut |
| `IdAllocation.FirstFree` | opc/core/config.py:269-276 | the search ends, at an unused id |
| `IdAllocation.FindFree` | opc/core/config.py:267-276 | the loop finds the first free variant |
| `IdAllocation.FirstFreeIsNear` | opc/core/config.py:269-276 | it stops at the latest after as many variants as there are ids |
| `IdAllocation.FreeIsLeast` | opc/core/config.py:267-276 | a free candidate is taken as it is, and otherwise the variant with the least free number |
| `IdAllocation.DecimalIsItsNumber` | opc/core/config.py:271-274 | the number of a variant is written in decimal digits without a leading zero |
| `IdAllocation.NextIdIsNumbered` | opc/core/config.py:271-274 | a variant is the candidate, cut to leave room and stripped of dashes at its end, an underscore and the number |
| `IdAllocation.StemIsExact` | opc/core/config.py:271-274 | the stem is what fits before the number, without the dashes at its end, and "org" when that is nothing |
| `IdAllocation.PreferredIsTried` | opc/core/config.py:260-267 | a valid preferred id, stripped, is the candidate, and otherwise the slug of the name |
| `IdAllocation.ValidatingIsExact` | opc/core/config.py:160-164 | ids are stripped, and valid exactly when 1 to 64 letters, digits, underscores and dashes are left |
| `IdAllocation.NextIdIsValid` | opc/core/config.py:271-274 | a variant is valid up to 62 digits, or up to 60 for a candidate that starts with a dash |
| `IdAllocation.AllocateOrganizationId` | opc/core/config.py:255-276 | the free variant of the preferred id, or of the slug when that is not valid |
| `IdAllocation.AllocateOrgConfigId` | opc/core/org_config.py:133-163 | the same, free of saved, runtime and reserved ids |
| `IdAllocation.AllocatedIdIsUsable` | opc/core/config.py:255-276 | the id is valid and no file has its name |
| `IdAllocation.AllocatedConfigIdIsUsable` | opc/core/org_config.py:133-163 | it is also not reserved and used by no runtime snapshot |
| `CompanyConfig.CompanyConfig.WriteCompanyOrgPayload` | opc/core/config.py:224-245 | employees go to the registry, the rest to the file of the id |
| `CompanyConfig.CompanyConfig.RepointOrgIndexIfActiveCorporate` | opc/core/config.py:1585-1602 | only a readable index on the corporate id is changed, and a bad schema version raises |
| `CompanyConfig.CompanyConfig.ArchiveConflictingCorporateOrgConfig` | opc/core/config.py:1605-1641 | files the custom organization under a free id, then repoints |
| `CompanyConfig.CompanyConfig.MigrateLegacySavedOrgs` | opc/core/config.py:1651-1690 | files every readable legacy organization whose id is free, in order |
| `CompanyConfig.CompanyConfig.LoadConflictingCorporate` | opc/core/config.py:1710-1714 | archives, then writes the legacy corporate payload into the slot |
| `CompanyConfig.CompanyConfig.WriteAndReload` | opc/core/config.py:1717-1729 | writes, reads back and validates |
| `CompanyConfig.CompanyConfig.LoadValidated` | opc/core/config.py:1703-1729 | the whole new store and the result of loading |
| `CompanyConfig.CompanyConfig.LoadCompanyOrgPayload` | opc/core/config.py:1693-1729 | the same for any id, blank or invalid ones included |
| `CompanyOrgTheorems.LoadingTwiceIsLoadingOnce` | opc/core/config.py:1693-1729 | loading twice leaves the files of loading once, if and only if no custom organization is stuck in the corporate slot |
| `CompanyOrgTheorems.ArchivingCanRepeat` | opc/core/config.py:1605-1641 | a store on which every load archives again |
| `CompanyOrgTheorems.CustomOrganizationSurvives` | opc/core/config.py:1605-1641 | a custom organization in the corporate slot keeps its roles under a fresh id, and the index follows it |
| `CompanyOrgTheorems.OtherOrganizationsAreKept` | opc/core/config.py:1693-1729 | loading one organization leaves every other file exactly as it was |
| `CompanyOrgTheorems.OwnRolesAreKept` | opc/core/config.py:1703-1729 | the loaded organization keeps its roles |
| `CompanyOrgTheorems.EmployeesAreEnrolled` | opc/core/config.py:224-245 | employees in a loaded file are enrolled in the registry of its organization and leave the file |
| `CompanyOrgTheorems.ArchivedEmployeesAreEnrolled` | opc/core/config.py:1605-1641 | the employees of an archived organization are enrolled under its new id |
| `CompanyOrgTheorems.MigrateAdds` | opc/core/config.py:1651-1690 | the legacy migration adds files and changes none |
| `CompanyOrgTheorems.LegacyOrganizationIsMigrated` | opc/core/config.py:1655-1688 | a readable legacy organization is filed under its free id with its roles, name, profile and the rest |
| `CompanyOrgTheorems.MigrateSettles` | opc/core/config.py:1651-1690 | once all readable legacy organizations are there it does nothing |
| `CompanyOrgTheorems.ArchiveIdsAreValid` | opc/core/config.py:1629-1633 | the archive ids are valid for fewer than 10^62 organizations |
| `CompanyOrgLoading.ReadingIsExact` | opc/core/config.py:1693-1705 | which files can be loaded, and that reading only fills in the schema number |
| `CompanyOrgLoading.OwnFileIsReturned` | opc/core/config.py:1703-1729 | loading an organization other than the corporate one returns what its file says, with the schema number; with employees or templates in it, what is filed without them; and each error in its case |
| `CompanyOrgLoading.CorporateFileIsReturned` | opc/core/config.py:1703-1729 | a corporate file that is not custom is returned in corporate form, with its roles |
| `CompanyOrgLoading.MissingCorporateIsMade` | opc/core/config.py:1721-1729 | without a corporate file what the legacy corporate files amount to is returned, and filed when that may be written |
| `CompanyOrgLoading.CustomIsReplaced` | opc/core/config.py:1706-1716 | a custom organization in the corporate slot is never returned as the corporate one: the legacy corporate organization is, once the custom one has been archived; or an error, and which |
| `CompanyOrgLoading.UnreadableCorporateIsKept` | opc/core/config.py:1703-1705 | a corporate file that cannot be loaded is an error, and is not written over |
| `CompanyOrgLoading.LoadUndoesWrite` | opc/core/config.py:224-245 | an organization that was written is loaded as written, apart from its employees and templates, if and only if it is loadable as filed |
| `CompanyOrgLoading.WriteIsExact` | opc/core/config.py:224-245 | writing needs a valid id; the file gets its id, name of the file, schema and kind, loses employees and templates, and is otherwise as given; every other file and roster stays |
| `CompanyOrgLoading.RepointIsExact` | opc/core/config.py:1585-1602 | the index follows exactly when it can be read and is on the corporate id, and keeps its version |
| `CompanyOrgLoading.ArchivedIsNamed` | opc/core/config.py:1605-1641 | an archived organization keeps everything that its file said, gets a name, and is marked custom with its origin |
| `CompanyOrgLoading.LegacyOrganizationIsFiled` | opc/core/config.py:1651-1690 | a legacy organization whose id is free in its turn is filed with name, company, roles and the rest, and its employees are enrolled |
| `EmployeeRegistry.AppendUniqueItems` | opc/core/employee_registry.py:62-67 | appends each new item once |
| `EmployeeRegistry.NormalizeEmployeeRecords` | opc/core/employee_registry.py:131-147 | the loop computes the normalized list and the aliases |
| `EmployeeRegistry.EmployeeRegistry.LoadEmployeeRegistry` | opc/core/employee_registry.py:150-163 | the readable files in the order of their names |
| `EmployeeRegistry.EmployeeRegistry.WriteEmployeeRegistry` | opc/core/employee_registry.py:177-207 | the directory holds the normalized real employees and nothing else |
| `EmployeeTheorems.NormalizedIsWellFormed` | opc/core/employee_registry.py:131-147 | distinct canonical ids, sorted by key, placeholders behind |
| `EmployeeTheorems.RealsAreDistinct` | opc/core/employee_registry.py:132-145 | one employee per canonical id |
| `EmployeeTheorems.ListsAreUnited` | opc/core/employee_registry.py:115-128 | each list of a merged employee is the union over its records |
| `EmployeeTheorems.EmployeeIsItsFoldedGroup` | opc/core/employee_registry.py:131-145 | an employee is what its records make when merged in order, whatever comes between them |
| `EmployeeTheorems.TextIsFirstFilled` | opc/core/employee_registry.py:120-126 | a merged text is the first one that is not empty |
| `EmployeeTheorems.DescriptionIsFirstLongest` | opc/core/employee_registry.py:120-124 | the merged description is the first of the longest |
| `EmployeeTheorems.NormalizingTwiceIsOnce` | opc/core/employee_registry.py:86-147 | idempotent if and only if no two records of one employee mix blank and visible legacy ids |
| `EmployeeTheorems.BlankLegacyIdsShowUpLater` | opc/core/employee_registry.py:96-102 | two such records, on which it is not |
| `EmployeeTheorems.AliasesLeadToEmployees` | opc/core/employee_registry.py:96-102 | every alias leads to an employee of the result |
| `EmployeeTheorems.GivenUpIdsBecomeAliases` | opc/core/employee_registry.py:90-102 | every visible legacy id and every id given up for a template is an alias |
| `EmployeeTheorems.RealsAreNearlyCanonical` | opc/core/employee_registry.py:86-128 | merging keeps the canonical form, but for blank legacy ids |
| `EmployeeDetails.AliasesAreExact` | opc/core/employee_registry.py:96-145 | an alias leads to the id by which the last record goes that lists or gives up its legacy id, and only such ids are aliases |
| `EmployeeDetails.AliasLeadsToItsEmployee` | opc/core/employee_registry.py:131-147 | the employee of that id is in the normalized list |
| `EmployeeDetails.CanonicalIsExact` | opc/core/employee_registry.py:86-112 | the canonical form changes the id and the metadata that follow from it, and nothing else |
| `EmployeeDetails.LegacyIdsAreExact` | opc/core/employee_registry.py:90-102 | the ids given up are the visible listed ones and the own id when the employee goes by another |
| `EmployeeDetails.UnionKeepsOrder` | opc/core/employee_registry.py:62-67 | a union starts with what was there and goes on with each new item once, in the order of the additions |
| `EmployeeDetails.MergedListsAreUnions` | opc/core/employee_registry.py:115-128 | the lists of a merged employee are those unions |
| `EmployeeDetails.MetadataIsMerged` | opc/core/employee_registry.py:70-83 | metadata is merged key by key: lists united, gaps filled, nested mappings updated, everything else kept |
| `EmployeeDetails.TextLeIsLexicographic` | opc/core/employee_registry.py:146-147 | sorting compares texts by the first character in which they differ |
| `EmployeeDetails.PlaceholdersAreKept` | opc/core/employee_registry.py:137-147 | placeholders come out as they went in, all of them and in order |
| `EmployeeRegistry.LoadUndoesWrite` | opc/core/employee_registry.py:150-207 | writing then loading gives back exactly the employees, if and only if no two share a file |
| `EmployeeRegistry.LoadedInOrder` | opc/core/employee_registry.py:150-163 | each readable file gives its employee in the place of the file among the readable ones |
| `EmployeeRegistry.FilesAreExpected` | opc/core/employee_registry.py:186-205 | no stale file is left |
| `EmployeeRegistry.RealsAreWritten` | opc/core/employee_registry.py:182-189 | what is written is the normalized list without placeholders |
| `EvolutionMerge.EvolutionProfiles.MigrateEvolutionEmployeeIds` | opc/core/employee_registry.py:210-244 | the usable profiles up to the first one where a merge raises are rewritten and stay so; all other files are as they were |
| `EvolutionMerge.EvolutionProfiles.MigrateProfile` | opc/core/employee_registry.py:223-244 | one file: rewritten when records move, untouched when it is no usable profile or a merge raises |
| `EvolutionMerge.MoveAll` | opc/core/employee_registry.py:234-241 | moves the records alias by alias |
| `EvolutionMerge.LeadingAliases` | opc/core/employee_registry.py:211-215 | the stripped aliases that are filled and lead elsewhere, each key once |
| `EvolutionMerge.MergeAccounts` | opc/core/employee_registry.py:247-262 | merging keeps each counter but for the loss it makes |
| `EvolutionTheorems.ItemsAreMerged` | opc/core/employee_registry.py:247-259 | a key of both records has what its two values make |
| `EvolutionTheorems.OtherKeysAreKept` | opc/core/employee_registry.py:247-259 | a key that the incoming record lacks keeps its value |
| `EvolutionTheorems.MergingRaises` | opc/core/employee_registry.py:247-259 | merging two records raises if and only if the values of some key do |
| `EvolutionTheorems.CountsAreAdded` | opc/core/employee_registry.py:251-252 | a number under a counter key is added to what is there, without fractions; to nothing it is itself; to what is no number it raises |
| `EvolutionTheorems.ListsAreAppended` | opc/core/employee_registry.py:253-254 | a list is appended to a list, to the characters of a text or the keys of a record; to a filled value of another kind it raises |
| `EvolutionTheorems.AppendingOneMore` | opc/core/employee_registry.py:62-67 | appending adds an item at the end unless it, or one equal to it, is there |
| `EvolutionTheorems.OthersFillGaps` | opc/core/employee_registry.py:255-258 | records are merged into records; every other value only fills what is missing |
| `EvolutionRoutes.MoveIsExact` | opc/core/employee_registry.py:234-241 | after one alias the legacy id has no record, the canonical id has exactly the legacy record if it had none and else the merged one, and all other ids keep theirs |
| `EvolutionRoutes.MovedCountsAddUp` | opc/core/employee_registry.py:234-241 | the counter at the canonical id is the sum of both, less the loss of the merge |
| `EvolutionRoutes.LegacyIdsAreGivenUp` | opc/core/employee_registry.py:234-241 | over any aliases, an id that leads elsewhere holds no record afterwards unless a later alias leads to it |
| `EvolutionRoutes.HeldWhereLed` | opc/core/employee_registry.py:234-241 | an id holds a record afterwards if and only if some record led to it, along the aliases followed in order |
| `EvolutionRoutes.CountsEndWhereTheyLead` | opc/core/employee_registry.py:234-262 | its counter is the sum over the records that led to it, less what the merges on the way lost |
| `EvolutionRoutes.LoneRecordArrives` | opc/core/employee_registry.py:234-241 | a record that meets no other arrives as it was, however long its chain |
| `EvolutionRoutes.LeadingIsExact` | opc/core/employee_registry.py:211-215 | the aliases followed are, once for each key, those that the last alias of the key gives |
| `EvolutionRoutes.ProfileKeepsTheRest` | opc/core/employee_registry.py:223-244 | a migrated profile keeps everything beside its employees |
| `EvolutionTheorems.MigrationAccounts` | opc/core/employee_registry.py:210-262 | over any aliases the total changes by exactly the losses |
| `EvolutionTheorems.ConservedExactlyUnlessLost` | opc/core/employee_registry.py:210-262 | a counter is conserved if and only if no counting record meets a value it cannot be merged into |
| `EvolutionTheorems.OneLayoutConserves` | opc/core/employee_registry.py:210-262 | records of one layout never raise and conserve every counter along any aliases |
| `EvolutionTheorems.NestedCountCanBeLost` | opc/core/employee_registry.py:247-266 | a merge that drops a nested count |
| `EvolutionTheorems.ProfilesConserveExactlyUnlessLost` | opc/core/employee_registry.py:210-262 | over all files, even when a merge raises halfway, a counter is conserved if and only if no rewritten file loses some of it |
| `EvolutionTheorems.ProfilesOfOneLayoutConserve` | opc/core/employee_registry.py:210-262 | files of one layout are all migrated and conserve every counter |
| `SessionParts.NormalizedSessionParts` | opc/core/session_parts.py:13-48 | the loops compute the normalized message |
| `SessionParts.VisitOutput` | opc/core/session_parts.py:17-47 | one legacy output is paired or converted |
| `SessionParts.FindTarget` | opc/core/session_parts.py:26-45 | the first untaken result that accepts the output |
| `SessionParts.MatchingIsInjective` | opc/core/session_parts.py:26-45 | the pairing is injective both ways and respects ids, names and contents |
| `SessionParts.MatchingIsGreedy` | opc/core/session_parts.py:26-45 | an output stays alone only when every result that accepts it is taken |
| `SessionParts.LengthDropsByPairs` | opc/core/session_parts.py:44-48 | one part disappears per pair |
| `SessionParts.NoLegacyOutputLeft` | opc/core/session_parts.py:46-48 | no legacy output is left |
| `SessionParts.OtherKindsUntouched` | opc/core/session_parts.py:14-48 | all other kinds keep content and order |
| `SessionParts.NormalizedKeepsOrder` | opc/core/session_parts.py:13-48 | the result is what becomes of the parts at the positions not paired away, in their order |
| `SessionParts.EnvelopesUntouched` | opc/core/session_parts.py:42-43 | results in envelope form, and unpaired ones, are unchanged and keep their place |
| `SessionParts.PairedResultsCarryTheOutput` | opc/core/session_parts.py:40-45 | a paired result without envelope gets the legacy output and keeps its other fields and its place |
| `SessionParts.LoneOutputsAreConverted` | opc/core/session_parts.py:46-47 | an unpaired output becomes, in its place, a result with its own output |
| `SessionParts.NormalizingTwiceIsOnce` | opc/core/session_parts.py:13-48 | normalizing again changes nothing |
| `SessionPartReading.OutputIsFirstPresent` | opc/core/session_parts.py:20-25 | the output is under the first of three keys that is present, even empty, and JSON text is decoded |
| `SessionPartReading.AcceptanceIsExact` | opc/core/session_parts.py:29-39 | two parts are accepted if and only if they name no different tools and either carry one call id or, when an id is missing, the canonical result is the output or the result inside it |
| `SessionPartReading.CallIdsDecide` | opc/core/session_parts.py:29-39 | when both parts carry a call id, the result of that call is accepted and no other |
| `PermissionScope.TasksInNativePermissionScope` | opc/core/native_permissions.py:132-179 | terminates with the least closed set of tasks, each once |
| `PermissionScope.Sweep` | opc/core/native_permissions.py:147-178 | one pass keeps the selection least, and changes something or finds it closed |
| `PermissionScope.CoveredIsReached` | opc/core/native_permissions.py:132-179 | covered are exactly the tasks that a chain of links reaches from the scope or its root session |
| `PermissionScope.LinkedIsTouching` | opc/core/native_permissions.py:149-170 | a task is linked when it names the scope, or one of its three sessions is known |
| `PermissionScope.SeedsAreNamed` | opc/core/native_permissions.py:139-146 | the seeds are the root session and the scope, which is the root session's unless one is given |
| `PermissionScope.KeysTellApart` | opc/core/native_permissions.py:147-178 | tasks are told apart by their visible id, and without one by their identity in memory |
| `PermissionPolicy.NativePermissionPolicyResolver.SetSessionLevel` | opc/core/native_permissions.py:204-209 | records the normalized level of a scope |
| `PermissionPolicy.NativePermissionPolicyResolver.ContextForTask` | opc/core/native_permissions.py:211-231 | the recorded level, else the stored one, else the default |
| `PermissionPolicy.NativePermissionPolicyResolver.RegisterTask` | opc/core/native_permissions.py:233-241 | records level and scope with the task |
| `PermissionPolicy.LevelSticks` | opc/core/native_permissions.py:204-241 | a recorded level stays until it is set explicitly |
| `PermissionPolicy.ScopeSharesOneLevel` | opc/core/native_permissions.py:211-241 | all tasks of a scope see one level |
| `PermissionPolicy.SettingReachesScope` | opc/core/native_permissions.py:204-231 | an explicit setting reaches every task of its scope |
| `PermissionPolicy.SettingGivesItsLevel` | opc/core/native_permissions.py:204-231 | a known setting gives its level to the whole scope; an absent or unreadable one the configured level, or Auto |
| `PermissionPolicy.ScopeIsFirstFilled` | opc/core/native_permissions.py:211-216 | a task belongs to the first filled one of six ids |
| `PermissionPolicy.FirstTaskDecides` | opc/core/native_permissions.py:211-231 | the first task of a scope brings its own level, which is kept exactly when the task stores one |
| `PermissionPolicy.BlankScopeIsNotSet` | opc/core/native_permissions.py:204-209 | setting a blank scope changes nothing |
| `PermissionPolicy.RegistrationIsStable` | opc/core/native_permissions.py:233-241 | registering a registered task again changes nothing |
| `ReviewVerdict.ParseReviewVerdict` | opc/core/review_verdict.py:68-94 | terminates on every text with the specified verdict |
| `ReviewVerdict.ScanText` | opc/core/review_verdict.py:78-94 | the loop finds the first verdict and combines it with the artifacts |
| `ReviewVerdict.ArtifactsDecide` | opc/core/review_verdict.py:74-94 | a verdict in the artifacts keeps its label; without one the text decides |
| `ReviewVerdict.ScanIsExact` | opc/core/review_verdict.py:79-94 | the result is the first verdict-bearing object; skipped braces lie in decoded objects without a verdict |
| `ReviewVerdict.NormalizeRecordIsNormal` | opc/core/review_verdict.py:24-47 | summaries and items are stripped, items not blank |
| `ReviewVerdict.NormalizingIsIdempotent` | opc/core/review_verdict.py:32-47 | normalizing again changes nothing if and only if the value was a mapping; a plain text gets two empty lists |
| `ReviewVerdict.NestedEnvelopeIsRead` | opc/core/review_verdict.py:50-65 | any readable mapping in either envelope is read as itself, the structured one when the other gives nothing |
| `ReviewVerdict.FlatEnvelopeKeepsSiblings` | opc/core/review_verdict.py:50-65 | an envelope with a bare label takes the texts beside it |
| `ReviewReading.WordsNameDecisions` | opc/core/review_verdict.py:14-17 | six words approve and five reject, in lower case; no other text decides |
| `ReviewReading.MappingIsRead` | opc/core/review_verdict.py:32-47 | a mapping is read by the first filled of its five decision keys alone, with its visible summary and the visible texts of its lists in order |
| `ReviewReading.PlainTextIsRead` | opc/core/review_verdict.py:32-36 | a plain text is a verdict exactly when all of it is such a word |
| `ReviewReading.ObjectIsRead` | opc/core/review_verdict.py:50-65 | an object is read by its envelope, else by its structured envelope, else by its own fields |
| `ReviewReading.BareIsExact` | opc/core/review_verdict.py:18-21 | a text explains nothing exactly when, between marks and in one case, it is one of the listed phrases |
| `ReviewReading.VerdictIsExact` | opc/core/review_verdict.py:68-94 | a bare rejection in the artifacts is replaced by the first verdict in the text exactly when that is a rejection with a reason; without a verdict in the artifacts the text's is taken |
| `MessageSplit.SplitMessage` | opc/channels/telegram.py:116-129 | terminates with the chunks of the specification |
| `MessageSplit.ChunksFit` | opc/channels/telegram.py:116-129 | every chunk fits the limit |
| `MessageSplit.ChunksCoverText` | opc/channels/telegram.py:116-129 | the text is its chunks in order, separated by whitespace only |
| `MessageSplit.LaterChunksAreNotEmpty` | opc/channels/telegram.py:116-129 | only the first chunk can be empty |
| `MessageSplit.SplittingKeepsContent` | opc/channels/telegram.py:116-129 | nothing but whitespace is lost, added or moved |
| `MessageSplit.FirstChunkIsCut` | opc/channels/telegram.py:116-129 | a text that fits is one chunk; any other is cut at the last newline that fits, or at the limit when there is none behind the first character |
| `MessageSplit.ChunksAreTrimmed` | opc/channels/telegram.py:121-126 | no chunk but the last ends with whitespace, and none but the first starts with it |
| `DuplicateWindow.OrderedWindow.Handle` | opc/channels/whatsapp.py:103-109 | a non-empty id passes exactly when it is not among the last 1000 accepted ones |
| `DuplicateWindow.DequeWindow.OnMessage` | opc/channels/qq.py:73-76 | the same for every id, with the bounded deque |
| `DuplicateWindow.PassesExactly` | opc/channels/whatsapp.py:103-109 | an id passes if and only if none of the last 1000 accepted ids is the same |
| `DuplicateWindow.RepeatsAreFarApart` | opc/channels/whatsapp.py:103-109 | two acceptances of one id have at least 1000 other distinct ids between them |
| `DuplicateWindow.WindowsAgree` | opc/channels/qq.py:73-76 | the two windows let the same messages of a stream through if and only if no blank id comes while one is in the window, and no id comes that a window with a blank has just evicted |
| `DuplicateWindow.BlankIdsTellThemApart` | opc/channels/qq.py:73-76 | blank ids are where they differ |

## Left out

- Interference inside an overlay operation: outside edits and rewrites happen between operations, and one overlay process runs at a time.  An edit between reading the config and journaling it would be lost.
- What lies behind the journal: JSON text, UTF-8, SHA-256 and the two YAML renderers are functions that are not looked into; a digest is taken to be 64 hexadecimal digits.
- Temporary files that a crash can leave beside the config, and failing system calls other than a missing file.
- The engine behind tool decisions: an environment that keeps the first durable decision of a checkpoint and acknowledges a submission only if it is that decision.
- What the store answers about the waiting task and its identity when a checkpoint is planned is an input; so is the order in which pending checkpoints are taken, and which of them wait until their files are there.
- How the validator judges tools that are not file tools, the call signature and the text around a refusal's reason are functions not looked into; checkpoint ids are taken without surrounding whitespace.
- YAML beyond the fields modelled: an organization file is a mapping with these fields or unreadable.  What the legacy corporate files amount to, and enrolling employees in a registry, are functions not looked into.
- Employees that had already been moved to the registry directory of the corporate id before their organization is archived: they stay there.
- File names that start with `company_`; the org-mode index, payload writers and readers of `opc/core/org_config.py` beyond ids.
- Unicode: normalization is a function that yields ASCII and leaves ASCII alone; lower case outside ASCII is not looked into.
- The file slug of an employee id and the YAML round trip of an employee are functions not looked into; an optional agent reads as text; the order of metadata keys is not kept.
- Floats that are no real numbers; counters inside lists are not counted; a rewritten profile is stored with its keys sorted, here they keep their order.
- JSON decoding of review texts, lower case and case folding are functions not looked into.
- Scope locks, scheduling fairness and the event loop itself: a step is any stretch between two awaits, and a run any sequence of steps.
- Sandbox profiles, tool effects and permission decisions beyond the level of a scope.
- Engine, store, dispatcher and coordinator; channel SDKs, HTTP, mail and socket code; prompts, report checks and URL handling; command line and user interfaces; static tables and single-branch normalizers, which would add only easy members.
