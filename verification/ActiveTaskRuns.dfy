/**
The registry of active execution attempts, field by field and method by method.  A clause
`State() == ...` fixes the whole new state; a method without `modifies` changes nothing.
The uuid an operation draws is a parameter, and so is the context of the calling coroutine.
*/
module ActiveTaskRuns {
  import opened Wrappers
  import opened AdmissionRegistry
  import Spec = AdmissionRegistry

  class ActiveTaskRunRegistry {
    var attempts: map<Key, set<Token>>
    var attemptOwnerTasks: map<Token, Coroutine>
    var shutdownOwnerFailures: seq<Failure>
    var recordedFailureTaskIds: set<Coroutine>
    var handoffRefs: map<Token, nat>
    var handoffsDrained: bool
    var admissionClosed: bool

    function State(): Registry
      reads this
    {
      Registry(attempts, attemptOwnerTasks, shutdownOwnerFailures, recordedFailureTaskIds,
               handoffRefs, handoffsDrained, admissionClosed)
    }

    constructor ()
      ensures State() == Spec.FRESH
    {
      attempts := map[];
      attemptOwnerTasks := map[];
      shutdownOwnerFailures := [];
      recordedFailureTaskIds := {};
      handoffRefs := map[];
      handoffsDrained := true;
      admissionClosed := false;
    }

    method Register(ctx: Context, project: Option<string>, task: Option<string>,
                    owner: Option<Coroutine>, minted: Token) returns (token: Result<Token, Error>)
      modifies this
      ensures Spec.Effect(State(), token) == Spec.Register(old(State()), ctx, project, task, owner, minted)
    {
      var handoff := PendingHandoff(State(), ctx);
      var driver := LiveDriver(State(), ctx);
      if admissionClosed && handoff.None? && driver.None? {
        return Err(AdmissionClosed);
      }
      var key := KeyOf(project, task);
      if key.Err? {
        return Err(key.error);
      }
      attempts := attempts[key.value := AttemptsOf(State().attempts, key.value) + {minted}];
      if owner.Some? {
        attemptOwnerTasks := attemptOwnerTasks[minted := owner.value];
      }
      if handoff.Some? {
        SettleHandoff(handoff.value);
      }
      return Ok(minted);
    }

    method BindAttemptTask(token: Token, owner: Coroutine) returns (done: Result<(), Error>)
      modifies this`attemptOwnerTasks
      ensures Spec.Effect(State(), done) == Spec.BindAttemptTask(old(State()), token, owner)
    {
      if !Active(State(), token) {
        return Err(AttemptNotActive);
      }
      attemptOwnerTasks := attemptOwnerTasks[token := owner];
      return Ok(());
    }

    method AttemptOwnerFinished(owner: Coroutine, ending: Ending)
      modifies this`recordedFailureTaskIds, this`shutdownOwnerFailures
      ensures State() == Spec.OwnerFinished(old(State()), owner, ending)
    {
      if !admissionClosed || ending.Cancelled? {
        return;
      }
      if owner in recordedFailureTaskIds {
        return;
      }
      if ending.Failed? {
        recordedFailureTaskIds := recordedFailureTaskIds + {owner};
        shutdownOwnerFailures := shutdownOwnerFailures + [Failure(owner, ending.what)];
      }
    }

    /** Entering `with bind_driver_attempt(token)`: the caller's new context. */
    method BindDriverAttempt(ctx: Context, token: Token) returns (bound: Result<Context, Error>)
      ensures bound == Spec.BindDriver(State(), ctx, token)
    {
      if !Active(State(), token) {
        return Err(DriverNotActive);
      }
      return Ok(ctx.(driver := ctx.driver + [Bound(true, token)]));
    }

    method ReserveHandoff(minted: Token) returns (token: Result<Token, Error>)
      modifies this`handoffRefs, this`handoffsDrained
      ensures Spec.Effect(State(), token) == Spec.Reserve(old(State()), minted)
    {
      if admissionClosed {
        return Err(AdmissionClosed);
      }
      handoffRefs := handoffRefs[minted := 1];
      handoffsDrained := false;
      return Ok(minted);
    }

    /** Entering `with bind_handoff(token)`: the caller's new context. */
    method BindHandoff(ctx: Context, token: Token) returns (bound: Result<Context, Error>)
      ensures bound == Spec.BindHandoff(State(), ctx, token)
    {
      if token !in handoffRefs {
        return Err(HandoffNotPending);
      }
      return Ok(ctx.(handoff := ctx.handoff + [Bound(true, token)]));
    }

    method RetainCurrentHandoff(ctx: Context) returns (token: Option<Token>)
      modifies this`handoffRefs
      ensures (State(), token) == Spec.Retain(old(State()), ctx)
    {
      token := PendingHandoff(State(), ctx);
      if token.Some? {
        handoffRefs := handoffRefs[token.value := handoffRefs[token.value] + 1];
      }
    }

    method ReleaseCurrentHandoff(ctx: Context) returns (released: bool)
      modifies this`handoffRefs, this`handoffsDrained
      ensures match PendingHandoff(old(State()), ctx)
              case None => State() == old(State()) && !released
              case Some(token) => (State(), released) == Spec.Release(old(State()), token)
    {
      var token := PendingHandoff(State(), ctx);
      if token.None? {
        return false;
      }
      released := ReleaseHandoff(token.value);
    }

    method ReleaseHandoff(token: Token) returns (released: bool)
      modifies this`handoffRefs, this`handoffsDrained
      ensures (State(), released) == Spec.Release(old(State()), token)
    {
      if token !in handoffRefs {
        return false;
      }
      if handoffRefs[token] > 1 {
        handoffRefs := handoffRefs[token := handoffRefs[token] - 1];
        return true;
      }
      SettleHandoff(token);
      return true;
    }

    method RevokeHandoff(token: Token) returns (revoked: bool)
      modifies this`handoffRefs, this`handoffsDrained
      ensures (State(), revoked) == Spec.Revoke(old(State()), token)
    {
      if token !in handoffRefs {
        return false;
      }
      SettleHandoff(token);
      return true;
    }

    method SettleHandoff(token: Token)
      modifies this`handoffRefs, this`handoffsDrained
      ensures State() == Spec.Settle(old(State()), token)
    {
      handoffRefs := handoffRefs - {token};
      if handoffRefs == map[] {
        handoffsDrained := true;
      }
    }

    method CloseAdmission()
      modifies this`admissionClosed
      ensures State() == old(State()).(closed := true)
    {
      admissionClosed := true;
    }

    method Unregister(project: Option<string>, task: Option<string>, token: Token)
      returns (removed: Result<bool, Error>)
      modifies this`attempts, this`attemptOwnerTasks
      ensures Spec.Effect(State(), removed) == Spec.Unregister(old(State()), project, task, token)
    {
      var key := KeyOf(project, task);
      if key.Err? {
        return Err(key.error);
      }
      if token !in AttemptsOf(State().attempts, key.value) {
        return Ok(false);
      }
      var left := AttemptsOf(State().attempts, key.value) - {token};
      if left == {} {
        attempts := attempts - {key.value};
      } else {
        attempts := attempts[key.value := left];
      }
      attemptOwnerTasks := attemptOwnerTasks - {token};
      return Ok(true);
    }

    /** `cancel_and_wait_for_owner_tasks` from the head of its loop to `gather`. */
    method CancelOwners(current: Coroutine, project: Option<string>, done: set<Coroutine>) returns (round: Round)
      modifies this`shutdownOwnerFailures, this`recordedFailureTaskIds
      ensures (State(), round) == Spec.JoinRound(old(State()), current, project, done)
    {
      if shutdownOwnerFailures != [] {
        round := Reported(shutdownOwnerFailures[0]);
        shutdownOwnerFailures := shutdownOwnerFailures[1..];
        recordedFailureTaskIds := {};
        return;
      }
      var owners := ActiveOwners(State(), project, done) - {current};
      round := if owners == {} then Finished else Waiting(owners);
    }

    /** The rest of that loop's body: `results` are what `gather` collected, owner by owner. */
    method OwnersGathered(results: seq<(Coroutine, Ending)>) returns (failure: Option<Failure>)
      modifies this`shutdownOwnerFailures, this`recordedFailureTaskIds
      ensures State() == Spec.JoinGathered(old(State()), failure)
      ensures failure.None? <==> forall r | r in results :: !r.1.Failed?
      ensures failure.Some? ==>
        exists i | 0 <= i < |results| ::
          results[i] == (failure.value.owner, Failed(failure.value.what)) && forall r | r in results[..i] :: !r.1.Failed?
    {
      var i := 0;
      while i < |results| && !results[i].1.Failed?
        invariant i <= |results|
        invariant forall r | r in results[..i] :: !r.1.Failed?
      {
        i := i + 1;
      }
      if i < |results| {
        shutdownOwnerFailures := [];
        recordedFailureTaskIds := {};
        assert results[i] == (results[i].0, Failed(results[i].1.what));
        return Some(Failure(results[i].0, results[i].1.what));
      }
      return None;
    }

    method IsActive(project: Option<string>, task: Option<string>) returns (active: Result<bool, Error>)
      ensures match KeyOf(project, task)
              case Err(e) => active == Err(e)
              case Ok(key) => active == Ok(exists t :: t in AttemptsOf(State().attempts, key))
    {
      var key := KeyOf(project, task);
      if key.Err? {
        return Err(key.error);
      }
      active := Ok(AttemptsOf(State().attempts, key.value) != {});
      if AttemptsOf(State().attempts, key.value) != {} {
        ghost var t :| t in AttemptsOf(State().attempts, key.value);
      }
    }

    method ActiveTaskIds(project: Option<string>) returns (ids: set<string>)
      ensures forall id :: id in ids <==> exists t :: t in AttemptsOf(State().attempts, Key(ProjectOf(project), id))
    {
      ids := set k | k in attempts && k.project == ProjectOf(project) && attempts[k] != {} :: k.task;
      forall id ensures id in ids <==> exists t :: t in AttemptsOf(State().attempts, Key(ProjectOf(project), id)) {
        var k := Key(ProjectOf(project), id);
        if k in attempts && attempts[k] != {} {
          var t :| t in attempts[k];
          assert t in AttemptsOf(State().attempts, k);
          assert k.task == id;
        }
      }
    }
  }
}
