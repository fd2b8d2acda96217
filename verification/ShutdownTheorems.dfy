/** What every run of the shutdown protocol keeps, and the theorems that follow. */
module ShutdownTheorems {
  import opened Wrappers
  import opened AdmissionRegistry
  import opened ShutdownProtocol

  // --- one table at a time ---

  lemma ActiveIsLive(r: Registry, live: map<Token, Key>, t: Token)
    requires Books(r.attempts, live)
    ensures Active(r, t) <==> t in live
  {
  }

  lemma AdmitKeepsBooks(attempts: map<Key, set<Token>>, live: map<Token, Key>, key: Key, t: Token)
    requires Books(attempts, live) && t !in live
    ensures t !in AttemptsOf(attempts, key)
    ensures Books(attempts[key := AttemptsOf(attempts, key) + {t}], live[t := key])
  {
  }

  lemma AdmitKeepsAccounts(attempts: map<Key, set<Token>>, registered: multiset<Key>, unregistered: multiset<Key>,
                           key: Key, t: Token)
    requires Accounts(attempts, registered, unregistered) && t !in AttemptsOf(attempts, key)
    ensures Accounts(attempts[key := AttemptsOf(attempts, key) + {t}], registered + multiset{key}, unregistered)
  {
  }

  lemma RemoveKeepsBooks(attempts: map<Key, set<Token>>, live: map<Token, Key>, key: Key, t: Token)
    requires Books(attempts, live) && t in AttemptsOf(attempts, key)
    ensures Books(Without(attempts, key, t), live - {t})
  {
    var fewer := Without(attempts, key, t);
    forall k, u | k in fewer && u in fewer[k] ensures u in live - {t} && live[u] == k {
      assert k in attempts && u in attempts[k];
      assert t in attempts[key];
      assert live[u] == k && live[t] == key;
    }
    forall u | u in live - {t} ensures live[u] in fewer && u in fewer[live[u]] {
      assert u in attempts[live[u]];
      if live[u] == key { assert u in AttemptsOf(attempts, key) - {t}; }
    }
  }

  lemma RemoveKeepsAccounts(attempts: map<Key, set<Token>>, registered: multiset<Key>, unregistered: multiset<Key>,
                            key: Key, t: Token)
    requires Accounts(attempts, registered, unregistered) && t in AttemptsOf(attempts, key)
    ensures Accounts(Without(attempts, key, t), registered, unregistered + multiset{key})
  {
    var fewer := Without(attempts, key, t);
    forall k ensures AttemptsOf(fewer, k) == if k == key then AttemptsOf(attempts, key) - {t} else AttemptsOf(attempts, k) {
    }
  }

  lemma RetainKeepsCounts(refs: map<Token, nat>, retained: multiset<Token>, released: multiset<Token>, t: Token)
    requires Counted(refs, retained, released) && t in refs
    ensures Counted(refs[t := refs[t] + 1], retained + multiset{t}, released)
    ensures refs[t] > 1 ==> Counted(refs[t := refs[t] - 1], retained, released + multiset{t})
    ensures Counted(refs - {t}, retained, released + multiset{t})
    ensures Counted(refs - {t}, retained, released)
  {
  }

  // --- each step keeps the registry in agreement with its history ---

  lemma SettleAgrees(r: Registry, minted: set<Token>, h: History, e: Event)
    requires Agrees(r, minted, h) && (e.Settled? || e.Revoked?) && e.token in r.refs
    ensures Agrees(Settle(r, e.token), minted, Absorb(h, e))
  {
    RetainKeepsCounts(r.refs, h.retained, h.released, e.token);
  }

  lemma AdmitAgrees(r: Registry, minted: set<Token>, h: History, e: Event, owner: Option<Coroutine>)
    requires Agrees(r, minted, h)
    requires e.Registered? && e.token !in minted && Licensed(h, e)
    ensures Agrees(Admit(r, e.key, owner, e.token), minted + {e.token}, Absorb(h, e))
  {
    AdmitKeepsBooks(r.attempts, h.live, e.key, e.token);
    AdmitKeepsAccounts(r.attempts, h.registered, h.unregistered, e.key, e.token);
  }

  lemma EntryIsLicensed(r: Registry, minted: set<Token>, h: History, ctx: Context, e: Event)
    requires Agrees(r, minted, h)
    requires e.Registered? && e.handoff == PendingHandoff(r, ctx) && e.driver == LiveDriver(r, ctx)
    requires !r.closed || e.handoff.Some? || e.driver.Some?
    ensures Licensed(h, e)
  {
    if e.driver.Some? {
      ActiveIsLive(r, h.live, e.driver.value);
    }
  }

  lemma StepRegisterKeepsInv(s: System, who: Coroutine, project: Option<string>, task: Option<string>,
                             owner: Option<Coroutine>, token: Token)
    requires Inv(s)
    ensures Inv(Commit(TryRegister(s, who, project, task, owner, token)))
  {
    hide KeyOf, Agrees;
    if TryRegister(s, who, project, task, owner, token) != Still(s) {
      var ctx := ContextOf(s, who);
      var key := KeyOf(project, task).value;
      var handoff := PendingHandoff(s.reg, ctx);
      var entry := Registered(token, key, owner, handoff, LiveDriver(s.reg, ctx));
      EntryIsLicensed(s.reg, s.minted, s.past, ctx, entry);
      AdmitAgrees(s.reg, s.minted, s.past, entry, owner);
      if handoff.Some? {
        SettleAgrees(Admit(s.reg, key, owner, token), s.minted + {token}, Absorb(s.past, entry), Settled(handoff.value));
      }
    }
  }

  lemma RemoveAgrees(r: Registry, minted: set<Token>, h: History, e: Event)
    requires Agrees(r, minted, h) && e.Unregistered? && e.token in AttemptsOf(r.attempts, e.key)
    ensures Agrees(r.(attempts := Without(r.attempts, e.key, e.token), owners := r.owners - {e.token}),
                   minted, Absorb(h, e))
  {
    RemoveKeepsBooks(r.attempts, h.live, e.key, e.token);
    RemoveKeepsAccounts(r.attempts, h.registered, h.unregistered, e.key, e.token);
  }

  lemma StepUnregisterKeepsInv(s: System, project: Option<string>, task: Option<string>, token: Token)
    requires Inv(s)
    ensures Inv(Commit(TryUnregister(s, project, task, token)))
  {
    if TryUnregister(s, project, task, token) != Still(s) {
      RemoveAgrees(s.reg, s.minted, s.past, Unregistered(token, KeyOf(project, task).value));
    }
  }

  lemma StepBindOwnerKeepsInv(s: System, token: Token, owner: Coroutine)
    requires Inv(s)
    ensures Inv(Commit(TryBindOwner(s, token, owner)))
  {
    ActiveIsLive(s.reg, s.past.live, token);
    assert Absorb(s.past, OwnerBound(token, owner)) == s.past;
  }

  lemma StepBindDriverKeepsInv(s: System, who: Coroutine, token: Token)
    requires Inv(s)
    ensures Inv(Commit(TryBindDriver(s, who, token)))
  {
    assert Absorb(s.past, DriverBound(token, who)) == s.past;
  }

  lemma StepBindHandoffKeepsInv(s: System, who: Coroutine, token: Token)
    requires Inv(s)
    ensures Inv(Commit(TryBindHandoff(s, who, token)))
  {
    assert Absorb(s.past, HandoffBound(token, who)) == s.past;
  }

  lemma StepReserveKeepsInv(s: System, token: Token)
    requires Inv(s)
    ensures Inv(Commit(TryReserve(s, token)))
  {
  }

  lemma StepRetainKeepsInv(s: System, who: Coroutine)
    requires Inv(s)
    ensures Inv(Commit(TryRetain(s, who)))
  {
    var token := PendingHandoff(s.reg, ContextOf(s, who));
    if token.Some? {
      RetainKeepsCounts(s.reg.refs, s.past.retained, s.past.released, token.value);
    }
  }

  lemma ReleaseAgrees(r: Registry, minted: set<Token>, h: History, t: Token)
    requires Agrees(r, minted, h) && t in r.refs && r.refs[t] > 1
    ensures Agrees(r.(refs := r.refs[t := r.refs[t] - 1]), minted, Absorb(h, Released(t)))
  {
    RetainKeepsCounts(r.refs, h.retained, h.released, t);
  }

  /** The last release drops the reference and settles in one step. */
  lemma LastReleaseAgrees(r: Registry, minted: set<Token>, h: History, t: Token)
    requires Agrees(r, minted, h) && t in r.refs
    ensures Agrees(Settle(r, t), minted, Absorb(Absorb(h, Released(t)), Settled(t)))
  {
    RetainKeepsCounts(r.refs, h.retained, h.released, t);
  }

  lemma StepReleaseKeepsInv(s: System, token: Token)
    requires Inv(s)
    ensures Inv(Commit(TryRelease(s, token)))
  {
    if token in s.reg.refs {
      if s.reg.refs[token] > 1 {
        ReleaseAgrees(s.reg, s.minted, s.past, token);
      } else {
        StepLastReleaseKeepsInv(s, token);
      }
    }
  }

  lemma StepLastReleaseKeepsInv(s: System, token: Token)
    requires Inv(s) && token in s.reg.refs && s.reg.refs[token] == 1
    ensures Inv(Commit(TryRelease(s, token)))
  {
    LastReleaseAgrees(s.reg, s.minted, s.past, token);
  }

  lemma StepRevokeKeepsInv(s: System, token: Token)
    requires Inv(s)
    ensures Inv(Commit(TryRevoke(s, token)))
  {
    if token in s.reg.refs {
      SettleAgrees(s.reg, s.minted, s.past, Revoked(token));
    }
  }

  /** An event that the history does not look at, and a change of the failures only. */
  lemma JoinAgrees(r: Registry, minted: set<Token>, h: History, e: Event, failures: seq<Failure>, recorded: set<Coroutine>)
    requires Agrees(r, minted, h)
    requires e.FailureRecorded? || e.FailureRaised? || e.GatherRaised? || e.JoinReturned? || e.Ended?
    ensures Agrees(r.(failures := failures, recorded := recorded), minted, Absorb(h, e))
  {
    assert Absorb(h, e) == h;
  }

  lemma FailuresChangeKeepsInv(s: System, e: Event, failures: seq<Failure>, recorded: set<Coroutine>,
                               joins: map<Coroutine, Join>, endings: map<Coroutine, Ending>)
    requires Inv(s)
    requires e.FailureRecorded? || e.FailureRaised? || e.GatherRaised? || e.JoinReturned? || e.Ended?
    ensures Inv(Commit(Once(
      s.(reg := s.reg.(failures := failures, recorded := recorded), joins := joins, endings := endings), e)))
  {
    JoinAgrees(s.reg, s.minted, s.past, e, failures, recorded);
  }

  lemma StepJoinTurnKeepsInv(s: System, who: Coroutine)
    requires Inv(s)
    ensures Inv(Commit(TryJoinTurn(s, who)))
  {
    if who in s.joins && s.joins[who].Looping? {
      var left := s.joins - {who};
      if s.reg.failures != [] {
        FailuresChangeKeepsInv(s, FailureRaised(who, s.reg.failures[0]), s.reg.failures[1..], {}, left, s.endings);
      } else {
        FailuresChangeKeepsInv(s, JoinReturned(who, s.joins[who].project), [], s.reg.recorded, left, s.endings);
      }
    }
  }

  lemma StepJoinResumesKeepsInv(s: System, who: Coroutine, culprit: Option<Coroutine>)
    requires Inv(s)
    ensures Inv(Commit(TryJoinResumes(s, who, culprit)))
  {
    if TryJoinResumes(s, who, culprit).Once? {
      FailuresChangeKeepsInv(s, TryJoinResumes(s, who, culprit).first, [], {}, s.joins - {who}, s.endings);
    }
  }

  lemma StepFinishKeepsInv(s: System, who: Coroutine, ending: Ending)
    requires Inv(s)
    ensures Inv(Commit(TryFinish(s, who, ending)))
  {
    FailuresChangeKeepsInv(s, Ended(who), s.reg.failures, s.reg.recorded, s.joins, s.endings[who := ending]);
  }

  lemma StepCloseKeepsInv(s: System, waiters: set<Coroutine>)
    requires Inv(s)
    ensures Inv(Commit(TryClose(s, waiters)))
  {
  }

  lemma StepWaiterWakesKeepsInv(s: System, who: Coroutine)
    requires Inv(s)
    ensures Inv(Commit(TryWaiterWakes(s, who)))
  {
  }

  lemma StepOwnerCallbackKeepsInv(s: System, owner: Coroutine)
    requires Inv(s)
    ensures Inv(Commit(TryOwnerCallback(s, owner)))
  {
    if TryOwnerCallback(s, owner).Once? {
      var next := OwnerFinished(s.reg, owner, s.endings[owner]);
      FailuresChangeKeepsInv(s, TryOwnerCallback(s, owner).first, next.failures, next.recorded, s.joins, s.endings);
    }
  }

  predicate OnAttempts(a: Action) {
    a.DoRegister? || a.DoUnregister? || a.DoBindOwner? || a.DoBindDriver? || a.DoUnbindDriver?
  }

  predicate OnHandoffs(a: Action) {
    || a.DoReserve? || a.DoBindHandoff? || a.DoUnbindHandoff? || a.DoRetain? || a.DoReleaseCurrent?
    || a.DoRelease? || a.DoRevoke?
  }

  /** Leaving a `with` block changes the bindings of one coroutine only. */
  lemma StepUnbindKeepsInv(s: System, a: Action)
    requires Inv(s) && (a.DoUnbindDriver? || a.DoUnbindHandoff?)
    ensures Inv(Step(s, a))
  {
  }

  lemma AttemptStepKeepsInv(s: System, a: Action)
    requires Inv(s) && OnAttempts(a)
    ensures Inv(Step(s, a))
  {
    hide Inv, Commit, TryRegister, TryUnregister, TryBindOwner, TryBindDriver;
    match a
    case DoRegister(who, project, task, owner, token) => StepRegisterKeepsInv(s, who, project, task, owner, token);
    case DoUnregister(project, task, token) => StepUnregisterKeepsInv(s, project, task, token);
    case DoBindOwner(token, owner) => StepBindOwnerKeepsInv(s, token, owner);
    case DoBindDriver(who, token) => StepBindDriverKeepsInv(s, who, token);
    case DoUnbindDriver(_) => StepUnbindKeepsInv(s, a);
  }

  predicate OnReferences(a: Action) {
    a.DoRetain? || a.DoReleaseCurrent? || a.DoRelease?
  }

  lemma StepReleaseCurrentKeepsInv(s: System, who: Coroutine)
    requires Inv(s)
    ensures Inv(Commit(TryReleaseCurrent(s, who)))
  {
    var token := PendingHandoff(s.reg, ContextOf(s, who));
    if token.Some? { StepReleaseKeepsInv(s, token.value); }
  }

  lemma ReferenceStepKeepsInv(s: System, a: Action)
    requires Inv(s) && OnReferences(a)
    ensures Inv(Step(s, a))
  {
    hide Inv, Commit, TryRetain, TryReleaseCurrent, TryRelease;
    match a
    case DoRetain(who) => StepRetainKeepsInv(s, who);
    case DoReleaseCurrent(who) => StepReleaseCurrentKeepsInv(s, who);
    case DoRelease(token) => StepReleaseKeepsInv(s, token);
  }

  lemma HandoffStepKeepsInv(s: System, a: Action)
    requires Inv(s) && OnHandoffs(a)
    ensures Inv(Step(s, a))
  {
    hide Inv, Commit, TryReserve, TryBindHandoff, TryRevoke, TryRetain, TryReleaseCurrent, TryRelease;
    if OnReferences(a) {
      ReferenceStepKeepsInv(s, a);
    } else {
      match a
      case DoReserve(token) => StepReserveKeepsInv(s, token);
      case DoBindHandoff(who, token) => StepBindHandoffKeepsInv(s, who, token);
      case DoUnbindHandoff(_) => StepUnbindKeepsInv(s, a);
      case DoRevoke(token) => StepRevokeKeepsInv(s, token);
    }
  }

  lemma StepStartsKeepInv(s: System, a: Action)
    requires Inv(s) && (a.DoSpawn? || a.DoJoin?)
    ensures Inv(Step(s, a))
  {
  }

  lemma ShutdownStepKeepsInv(s: System, a: Action)
    requires Inv(s) && !OnAttempts(a) && !OnHandoffs(a)
    ensures Inv(Step(s, a))
  {
    hide Inv, Commit, TryClose, TryWaiterWakes, TryOwnerCallback, TryJoinTurn, TryJoinResumes, TryFinish;
    match a
    case DoClose => StepCloseKeepsInv(s, {});
    case DoCloseAndWait(who) => StepCloseKeepsInv(s, {who});
    case DoWaiterWakes(who) => StepWaiterWakesKeepsInv(s, who);
    case DoOwnerCallback(owner) => StepOwnerCallbackKeepsInv(s, owner);
    case DoJoinTurn(who) => StepJoinTurnKeepsInv(s, who);
    case DoJoinResumes(who, culprit) => StepJoinResumesKeepsInv(s, who, culprit);
    case DoFinish(who, ending) => StepFinishKeepsInv(s, who, ending);
    case _ => StepStartsKeepInv(s, a);
  }

  lemma StepKeepsInv(s: System, a: Action)
    requires Inv(s)
    ensures Inv(Step(s, a))
  {
    if OnAttempts(a) {
      AttemptStepKeepsInv(s, a);
    } else if OnHandoffs(a) {
      HandoffStepKeepsInv(s, a);
    } else {
      ShutdownStepKeepsInv(s, a);
    }
  }

  lemma {:induction false} RunKeepsInv(s: System, actions: seq<Action>)
    requires Inv(s)
    ensures Inv(Exec(s, actions))
    decreases |actions|
  {
    if actions != [] {
      StepKeepsInv(s, actions[0]);
      RunKeepsInv(Step(s, actions[0]), actions[1..]);
    }
  }

  // --- the running summary is the summary of the whole log ---

  lemma PastOfOne(log: seq<Event>, e: Event)
    ensures Past(log + [e]) == Absorb(Past(log), e)
  {
    assert (log + [e])[..|log|] == log;
  }

  lemma MoveLeavesLog(s: System, a: Action)
    ensures Try(s, a).next.log == s.log && Try(s, a).next.past == s.past
  {
  }

  lemma StepNotes(s: System, a: Action)
    requires s.past == Past(s.log)
    ensures Step(s, a).past == Past(Step(s, a).log) && s.log <= Step(s, a).log
  {
    MoveLeavesLog(s, a);
    match Try(s, a)
    case Still(_) =>
    case Once(_, first) => PastOfOne(s.log, first);
    case Twice(_, first, second) =>
      PastOfOne(s.log, first);
      PastOfOne(s.log + [first], second);
  }

  lemma {:induction false} RunNotes(s: System, actions: seq<Action>)
    requires s.past == Past(s.log)
    ensures Exec(s, actions).past == Past(Exec(s, actions).log) && s.log <= Exec(s, actions).log
    decreases |actions|
  {
    if actions != [] {
      StepNotes(s, actions[0]);
      RunNotes(Step(s, actions[0]), actions[1..]);
    }
  }

  /** Everything the theorems need to know about a reachable state. */
  lemma Reached(actions: seq<Action>) returns (s: System)
    ensures s == Exec(START, actions)
    ensures Inv(s) && s.past == Past(s.log)
  {
    s := Exec(START, actions);
    RunKeepsInv(START, actions);
    RunNotes(START, actions);
  }

  // --- Admission: who may still enter after the close ---

  lemma {:induction false} EveryEntryLicensed(log: seq<Event>, i: nat)
    requires Past(log).licensed && i < |log| && log[i].Registered?
    ensures Licensed(Past(log[..i]), log[i])
  {
    var before := log[..|log| - 1];
    if i < |before| {
      EveryEntryLicensed(before, i);
      assert before[..i] == log[..i];
    }
  }

  lemma {:induction false} LiveWasRegistered(log: seq<Event>, t: Token) returns (j: nat)
    requires t in Past(log).live
    ensures j < |log| && log[j].Registered? && log[j].token == t
  {
    var before := log[..|log| - 1];
    var e := log[|log| - 1];
    if e.Registered? && e.token == t {
      j := |log| - 1;
    } else {
      j := LiveWasRegistered(before, t);
    }
  }

  lemma {:induction false} ChainFrom(log: seq<Event>, i: nat) returns (c: seq<nat>)
    requires Past(log).licensed && i < |log| && log[i].Registered?
    ensures AdmissionChain(log, c) && c[0] == i
    decreases i
  {
    EveryEntryLicensed(log, i);
    c := [i];
    if Past(log[..i]).closed && !(log[i].handoff.Some? && log[i].handoff.value in Past(log[..i]).reserved) {
      var j := LiveWasRegistered(log[..i], log[i].driver.value);
      var rest := ChainFrom(log, j);
      c := c + rest;
    }
  }

  /**
  In every run, an attempt registered at any moment, in particular after the close, descends
  through drivers live at their registrations from an attempt or a handoff reservation that
  was admitted while admission was open.
  */
  lemma EveryAttemptDescendsFromBeforeTheClose(actions: seq<Action>, i: nat)
    requires i < |Exec(START, actions).log| && Exec(START, actions).log[i].Registered?
    ensures exists c :: AdmissionChain(Exec(START, actions).log, c) && c[0] == i
  {
    var s := Reached(actions);
    var c := ChainFrom(s.log, i);
  }

  lemma NothingIsLive(s: System, t: Token)
    requires Quiet(s)
    ensures !Active(s.reg, t)
  {
  }

  /** From a quiet state a move changes neither table and logs nothing that admits. */
  predicate StaysQuiet(s: System, m: Move) {
    && m.next.reg.closed && m.next.reg.refs == s.reg.refs
    && m.next.reg.attempts == s.reg.attempts && m.next.reg.owners == s.reg.owners
    && (m.Once? ==> !Admitting(m.first))
    && !m.Twice?
  }

  lemma QuietAttemptStep(s: System, a: Action)
    requires Quiet(s) && OnAttempts(a)
    ensures StaysQuiet(s, Try(s, a))
  {
    match a
    case DoRegister(who, _, _, _, _) =>
      var driver := Current(ContextOf(s, who).driver);
      if driver.Bound? { NothingIsLive(s, driver.token); }
    case DoBindOwner(token, _) => NothingIsLive(s, token);
    case DoBindDriver(_, token) => NothingIsLive(s, token);
    case _ =>
  }

  lemma QuietStep(s: System, a: Action)
    requires Quiet(s)
    ensures StaysQuiet(s, Try(s, a))
  {
    if OnAttempts(a) {
      QuietAttemptStep(s, a);
    } else if OnHandoffs(a) {
      QuietHandoffStep(s, a);
    } else {
      QuietShutdownStep(s, a);
    }
  }

  lemma QuietHandoffStep(s: System, a: Action)
    requires Quiet(s) && OnHandoffs(a)
    ensures StaysQuiet(s, Try(s, a))
  {
  }

  lemma QuietShutdownStep(s: System, a: Action)
    requires Quiet(s) && !OnAttempts(a) && !OnHandoffs(a)
    ensures StaysQuiet(s, Try(s, a))
  {
  }

  /** Once closed, drained and idle, always so: no later step registers, reserves, retains or binds anything. */
  lemma {:induction false} QuietIsAbsorbing(s: System, actions: seq<Action>)
    requires Quiet(s)
    ensures var t := Exec(s, actions);
      && Quiet(t)
      && t.reg.attempts == s.reg.attempts && t.reg.owners == s.reg.owners
      && s.log <= t.log
      && forall i | |s.log| <= i < |t.log| :: !Admitting(t.log[i])
    decreases |actions|
  {
    if actions != [] {
      QuietStep(s, actions[0]);
      MoveLeavesLog(s, actions[0]);
      QuietIsAbsorbing(Step(s, actions[0]), actions[1..]);
    }
  }

  // --- Handoffs: reference counts, the drained event, and the wait ---

  lemma {:induction false} PastCounts(log: seq<Event>, t: Token)
    ensures Past(log).retained[t] == multiset(log)[Retained(t)]
    ensures Past(log).released[t] == multiset(log)[Released(t)]
    ensures t in Past(log).ended <==> Settled(t) in log || Revoked(t) in log
    ensures Past(log).closed <==> Closed in log
  {
    if log != [] {
      var before := log[..|log| - 1];
      PastCounts(before, t);
      assert log == before + [log[|log| - 1]];
    }
  }

  lemma {:induction false} PastDrained(log: seq<Event>, who: Coroutine)
    requires DrainReturned(who) in log
    ensures Past(log).drained
  {
    var before := log[..|log| - 1];
    if log[|log| - 1] != DrainReturned(who) {
      assert log == before + [log[|log| - 1]];
      PastDrained(before, who);
    }
  }

  /** A pending handoff holds one reference plus its retains minus its releases. */
  lemma ReferenceCountIsExact(actions: seq<Action>, t: Token)
    requires t in Exec(START, actions).reg.refs
    ensures var s := Exec(START, actions);
      s.reg.refs[t] + multiset(s.log)[Released(t)] == 1 + multiset(s.log)[Retained(t)]
  {
    var s := Reached(actions);
    PastCounts(s.log, t);
  }

  lemma DrainedExactlyWhenNothingPends(actions: seq<Action>)
    ensures Exec(START, actions).reg.drained <==> Exec(START, actions).reg.refs == map[]
  {
    var s := Reached(actions);
    assert s.reg.refs.Keys == {} <==> s.reg.refs == map[];
  }

  lemma {:induction false} ExecInTwo(s: System, first: seq<Action>, rest: seq<Action>)
    ensures Exec(s, first + rest) == Exec(Exec(s, first), rest)
    decreases |first|
  {
    if first == [] {
      assert first + rest == rest;
    } else {
      assert (first + rest)[1..] == first[1..] + rest;
      ExecInTwo(Step(s, first[0]), first[1..], rest);
    }
  }

  /** A settled or revoked reservation is never pending again. */
  lemma EndedNeverPendsAgain(actions: seq<Action>, more: seq<Action>, t: Token)
    requires Settled(t) in Exec(START, actions).log || Revoked(t) in Exec(START, actions).log
    ensures t !in Exec(Exec(START, actions), more).reg.refs
  {
    var s := Reached(actions);
    ExecInTwo(START, actions, more);
    var later := Reached(actions + more);
    RunNotes(s, more);
    assert later.log[..|s.log|] == s.log;
    PastCounts(later.log, t);
  }

  lemma ClosedMoveOnlyShrinks(s: System, a: Action)
    requires s.reg.closed
    ensures Try(s, a).next.reg.closed
    ensures Try(s, a).next.reg.refs.Keys <= s.reg.refs.Keys
  {
    if OnAttempts(a) {
      ClosedAttemptMove(s, a);
    } else if OnHandoffs(a) {
      ClosedHandoffMove(s, a);
    } else {
      ClosedShutdownMove(s, a);
    }
  }

  lemma ClosedAttemptMove(s: System, a: Action)
    requires s.reg.closed && OnAttempts(a)
    ensures Try(s, a).next.reg.closed && Try(s, a).next.reg.refs.Keys <= s.reg.refs.Keys
  {
  }

  lemma ClosedReferenceMove(s: System, a: Action)
    requires s.reg.closed && OnReferences(a)
    ensures Try(s, a).next.reg.closed && Try(s, a).next.reg.refs.Keys <= s.reg.refs.Keys
  {
  }

  lemma ClosedHandoffMove(s: System, a: Action)
    requires s.reg.closed && OnHandoffs(a)
    ensures Try(s, a).next.reg.closed && Try(s, a).next.reg.refs.Keys <= s.reg.refs.Keys
  {
    if OnReferences(a) { ClosedReferenceMove(s, a); }
  }

  lemma ClosedShutdownMove(s: System, a: Action)
    requires s.reg.closed && !OnAttempts(a) && !OnHandoffs(a)
    ensures Try(s, a).next.reg.closed && Try(s, a).next.reg.refs.Keys <= s.reg.refs.Keys
  {
  }

  lemma CommitKeepsRegistry(m: Move)
    ensures Commit(m).reg == m.next.reg
  {
  }

  /** After the close the pending set only shrinks. */
  lemma {:induction false} PendingOnlyShrinksAfterClose(s: System, actions: seq<Action>)
    requires s.reg.closed
    ensures Exec(s, actions).reg.closed
    ensures Exec(s, actions).reg.refs.Keys <= s.reg.refs.Keys
    decreases |actions|
  {
    if actions != [] {
      ClosedMoveOnlyShrinks(s, actions[0]);
      CommitKeepsRegistry(Try(s, actions[0]));
      PendingOnlyShrinksAfterClose(Step(s, actions[0]), actions[1..]);
    }
  }

  /** A drain wait returns only with nothing pending, and nothing ever pends after it. */
  lemma DrainReturnIsFinal(actions: seq<Action>, more: seq<Action>, who: Coroutine)
    requires DrainReturned(who) in Exec(START, actions).log
    ensures Exec(START, actions).reg.closed && Exec(START, actions).reg.refs == map[]
    ensures Exec(Exec(START, actions), more).reg.refs == map[]
  {
    var s := Reached(actions);
    PastDrained(s.log, who);
    PendingOnlyShrinksAfterClose(s, more);
    var later := Exec(s, more);
    assert later.reg.refs.Keys == {};
    assert later.reg.refs == map[];
  }

  // --- Attempts: accounting, owners, and the shutdown join ---

  lemma {:induction false} PastRegistrations(log: seq<Event>, key: Key)
    ensures Past(log).registered[key] == Registrations(log, key)
    ensures Past(log).unregistered[key] == Unregistrations(log, key)
  {
    if log != [] {
      PastRegistrations(log[..|log| - 1], key);
    }
  }

  /** A task's attempt count is its registrations minus its successful unregistrations. */
  lemma AttemptCountIsExact(actions: seq<Action>, key: Key)
    ensures var s := Exec(START, actions);
      |AttemptsOf(s.reg.attempts, key)| + Unregistrations(s.log, key) == Registrations(s.log, key)
  {
    var s := Reached(actions);
    PastRegistrations(s.log, key);
  }

  /** Owner entries exist only for live attempts, and a token is live under one task only. */
  lemma OwnersAreLive(actions: seq<Action>, t: Token)
    requires t in Exec(START, actions).reg.owners
    ensures Active(Exec(START, actions).reg, t)
    ensures forall k, l ::
      t in AttemptsOf(Exec(START, actions).reg.attempts, k) && t in AttemptsOf(Exec(START, actions).reg.attempts, l) ==> k == l
  {
    var s := Reached(actions);
    ActiveIsLive(s.reg, s.past.live, t);
  }
}
