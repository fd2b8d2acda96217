/**
The shutdown join in every run: when it returns, which recorded failures it raises, and which it drops.
A failure is known by the owner task that ended with it.
*/
module ShutdownJoins {
  import opened Wrappers
  import opened AdmissionRegistry
  import opened ShutdownProtocol
  import opened ShutdownTheorems

  // --- what a log says about failures and owners ---

  /** Read off a log, independently of any registry. */
  datatype Ledger = Ledger(
    recorded: seq<Failure>,          // all failures recorded so far, in order
    taken: nat,                      // how many of them have left the list again, the oldest first
    owners: map<Token, Coroutine>,   // the owner last bound to an attempt not unregistered since
    live: map<Token, Key>,           // attempts registered and not unregistered since
    ended: set<Coroutine>,           // tasks that have ended
    fair: bool)                      // every raise and every return of a join so far was a fair one

  const NOTHING := Ledger([], 0, map[], map[], {}, true)

  /** The failures that are recorded and have not left the list. */
  function Listed(l: Ledger): seq<Failure> {
    if l.taken <= |l.recorded| then l.recorded[l.taken..] else []
  }

  predicate InScope(key: Key, project: Option<string>) {
    project.None? || key.project == ProjectOf(project)
  }

  /** Every owner of a live attempt in scope has ended, save the caller of the join. */
  predicate IsIdle(l: Ledger, who: Coroutine, project: Option<string>) {
    forall t | t in l.owners && t in l.live && InScope(l.live[t], project) ::
      l.owners[t] == who || l.owners[t] in l.ended
  }

  /** A join raises the oldest listed failure, and returns only with none listed and nothing to wait for. */
  predicate IsFair(l: Ledger, e: Event) {
    match e
    case FailureRaised(_, failure) => Listed(l) != [] && failure == Listed(l)[0]
    case JoinReturned(who, project) => Listed(l) == [] && IsIdle(l, who, project)
    case _ => true
  }

  function Enter(l: Ledger, e: Event): Ledger {
    Ledger(
      if e.FailureRecorded? then l.recorded + [e.failure] else l.recorded,
      if e.FailureRaised? then l.taken + 1 else if e.GatherRaised? then |l.recorded| else l.taken,
      if e.Registered? && e.owner.Some? then l.owners[e.token := e.owner.value]
      else if e.OwnerBound? then l.owners[e.token := e.coroutine]
      else if e.Unregistered? then l.owners - {e.token}
      else l.owners,
      if e.Registered? then l.live[e.token := e.key] else if e.Unregistered? then l.live - {e.token} else l.live,
      if e.Ended? then l.ended + {e.who} else l.ended,
      l.fair && IsFair(l, e))
  }

  function Joins(log: seq<Event>): Ledger {
    if log == [] then NOTHING else Enter(Joins(log[..|log| - 1]), log[|log| - 1])
  }

  lemma JoinsNext(log: seq<Event>, e: Event)
    ensures Joins(log + [e]) == Enter(Joins(log), e)
  {
    assert (log + [e])[..|log|] == log;
  }

  lemma {:induction false} JoinsKnowLive(log: seq<Event>)
    ensures Joins(log).live == Past(log).live
  {
    if log != [] {
      JoinsKnowLive(log[..|log| - 1]);
    }
  }

  // --- every run is fair ---

  /** The registry and the endings of `s` are what the ledger says. */
  ghost predicate Follows(s: System, l: Ledger) {
    && l.fair && l.taken <= |l.recorded|
    && s.reg.failures == Listed(l)
    && s.reg.owners == l.owners
    && s.endings.Keys == l.ended
  }

  ghost predicate MoveFollows(m: Move, l: Ledger) {
    match m
    case Still(next) => Follows(next, l)
    case Once(next, first) => Follows(next, Enter(l, first))
    case Twice(next, first, second) => Follows(next, Enter(Enter(l, first), second))
  }

  /** An event that the ledger does not look at. */
  predicate IsNeutral(e: Event) {
    || e.DriverBound? || e.HandoffBound? || e.Reserved? || e.Retained? || e.Released? || e.Settled? || e.Revoked?
    || e.Closed? || e.DrainReturned?
  }

  /** A move that touches neither failures nor owners nor endings, and logs neutral events. */
  predicate IsNeutralMove(s: System, m: Move) {
    && m.next.reg.failures == s.reg.failures && m.next.reg.owners == s.reg.owners && m.next.endings == s.endings
    && (m.Still? || (IsNeutral(m.first) && (m.Twice? ==> IsNeutral(m.second))))
  }

  lemma NeutralEvent(l: Ledger, e: Event)
    requires IsNeutral(e)
    ensures Enter(l, e) == l
  {
  }

  lemma NeutralMoveFollows(s: System, l: Ledger, m: Move)
    requires Follows(s, l) && IsNeutralMove(s, m)
    ensures MoveFollows(m, l)
  {
    if !m.Still? {
      NeutralEvent(l, m.first);
      if m.Twice? { NeutralEvent(l, m.second); }
    }
  }

  lemma RetainIsNeutral(s: System, who: Coroutine)
    ensures IsNeutralMove(s, TryRetain(s, who))
  {
  }

  lemma ReleaseIsApart(r: Registry, token: Token)
    ensures var next := Release(r, token).0; next.failures == r.failures && next.owners == r.owners
  {
  }

  lemma ReleaseIsNeutral(s: System, token: Token)
    ensures IsNeutralMove(s, TryRelease(s, token))
  {
    ReleaseIsApart(s.reg, token);
  }

  lemma ReferenceMoveIsNeutral(s: System, a: Action)
    requires OnReferences(a)
    ensures IsNeutralMove(s, Try(s, a))
  {
    match a
    case DoRetain(who) => RetainIsNeutral(s, who);
    case DoRelease(token) => ReleaseIsNeutral(s, token);
    case DoReleaseCurrent(who) =>
      var token := PendingHandoff(s.reg, ContextOf(s, who));
      if token.Some? { ReleaseIsNeutral(s, token.value); }
    case _ =>
  }

  lemma HandoffMoveIsNeutral(s: System, a: Action)
    requires OnHandoffs(a)
    ensures IsNeutralMove(s, Try(s, a))
  {
    if OnReferences(a) { ReferenceMoveIsNeutral(s, a); }
  }

  lemma RegisterBindsOwner(r: Registry, ctx: Context, project: Option<string>, task: Option<string>,
                           owner: Option<Coroutine>, token: Token)
    ensures var effect := Register(r, ctx, project, task, owner, token);
      && effect.next.failures == r.failures
      && (effect.result.Ok? ==>
            effect.next.owners == if owner.Some? then r.owners[token := owner.value] else r.owners)
  {
    hide PendingHandoff, LiveDriver, KeyOf;
  }

  lemma RegisteredFollows(s: System, l: Ledger, next: System, e: Event)
    requires Follows(s, l) && e.Registered? && next.endings == s.endings && next.reg.failures == s.reg.failures
    requires next.reg.owners == if e.owner.Some? then s.reg.owners[e.token := e.owner.value] else s.reg.owners
    ensures Follows(next, Enter(l, e))
  {
  }

  lemma RegisterFollows(s: System, l: Ledger, who: Coroutine, project: Option<string>, task: Option<string>,
                        owner: Option<Coroutine>, token: Token)
    requires Follows(s, l)
    ensures MoveFollows(TryRegister(s, who, project, task, owner, token), l)
  {
    var m := TryRegister(s, who, project, task, owner, token);
    RegisterBindsOwner(s.reg, ContextOf(s, who), project, task, owner, token);
    if !m.Still? { RegisteredFollows(s, l, m.next, m.first); }
    if m.Twice? { NeutralEvent(Enter(l, m.first), m.second); }
  }

  lemma UnregisterDropsOwner(r: Registry, project: Option<string>, task: Option<string>, token: Token)
    ensures var effect := Unregister(r, project, task, token);
      effect.next.failures == r.failures && (effect.result == Ok(true) ==> effect.next.owners == r.owners - {token})
  {
  }

  lemma UnregisteredFollows(s: System, l: Ledger, next: System, e: Event)
    requires Follows(s, l) && e.Unregistered? && next.endings == s.endings && next.reg.failures == s.reg.failures
    requires next.reg.owners == s.reg.owners - {e.token}
    ensures Follows(next, Enter(l, e))
  {
  }

  lemma UnregisterFollows(s: System, l: Ledger, project: Option<string>, task: Option<string>, token: Token)
    requires Follows(s, l)
    ensures MoveFollows(TryUnregister(s, project, task, token), l)
  {
    var m := TryUnregister(s, project, task, token);
    UnregisterDropsOwner(s.reg, project, task, token);
    if m.Once? { UnregisteredFollows(s, l, m.next, m.first); }
  }

  lemma BindOwnerFollows(s: System, l: Ledger, token: Token, owner: Coroutine)
    requires Follows(s, l)
    ensures MoveFollows(TryBindOwner(s, token, owner), l)
  {
  }

  lemma BindDriverIsNeutral(s: System, who: Coroutine, token: Token)
    ensures IsNeutralMove(s, TryBindDriver(s, who, token))
  {
  }

  lemma AttemptMoveFollows(s: System, l: Ledger, a: Action)
    requires Follows(s, l) && OnAttempts(a)
    ensures MoveFollows(Try(s, a), l)
  {
    match a
    case DoRegister(who, project, task, owner, token) => RegisterFollows(s, l, who, project, task, owner, token);
    case DoUnregister(project, task, token) => UnregisterFollows(s, l, project, task, token);
    case DoBindOwner(token, owner) => BindOwnerFollows(s, l, token, owner);
    case DoBindDriver(who, token) =>
      BindDriverIsNeutral(s, who, token);
      NeutralMoveFollows(s, l, TryBindDriver(s, who, token));
    case DoUnbindDriver(_) =>
  }

  lemma LiveOwnerIsListed(r: Registry, project: Option<string>, done: set<Coroutine>, k: Key, t: Token)
    requires t in AttemptsOf(r.attempts, k) && t in r.owners && r.owners[t] !in done
    requires InScope(k, project)
    ensures r.owners[t] in ActiveOwners(r, project, done)
  {
  }

  /** A turn of the join that finds nobody to wait for. */
  lemma NobodyToWaitFor(r: Registry, live: map<Token, Key>, l: Ledger, who: Coroutine, project: Option<string>)
    requires Books(r.attempts, live) && l.live == live && r.owners == l.owners
    requires ActiveOwners(r, project, l.ended) - {who} == {}
    ensures IsIdle(l, who, project)
  {
    forall t | t in l.owners && t in l.live && InScope(l.live[t], project)
      ensures l.owners[t] == who || l.owners[t] in l.ended
    {
      if l.owners[t] !in l.ended {
        LiveOwnerIsListed(r, project, l.ended, l.live[t], t);
        assert l.owners[t] !in ActiveOwners(r, project, l.ended) - {who};
      }
    }
  }

  lemma JoinTurnFollows(s: System, l: Ledger, who: Coroutine)
    requires Follows(s, l) && Books(s.reg.attempts, s.past.live) && l.live == s.past.live
    ensures MoveFollows(TryJoinTurn(s, who), l)
  {
    if who in s.joins && s.joins[who].Looping? {
      var project := s.joins[who].project;
      if s.reg.failures == [] && ActiveOwners(s.reg, project, s.endings.Keys) - {who} == {} {
        NobodyToWaitFor(s.reg, s.past.live, l, who, project);
      }
    }
  }

  lemma FinishFollows(s: System, l: Ledger, who: Coroutine, ending: Ending)
    requires Follows(s, l)
    ensures MoveFollows(TryFinish(s, who, ending), l)
  {
  }

  lemma OwnerCallbackFollows(s: System, l: Ledger, owner: Coroutine)
    requires Follows(s, l)
    ensures MoveFollows(TryOwnerCallback(s, owner), l)
  {
  }

  lemma JoinResumesFollows(s: System, l: Ledger, who: Coroutine, culprit: Option<Coroutine>)
    requires Follows(s, l)
    ensures MoveFollows(TryJoinResumes(s, who, culprit), l)
  {
  }

  lemma ShutdownMoveFollows(s: System, l: Ledger, a: Action)
    requires Follows(s, l) && !OnAttempts(a) && !OnHandoffs(a)
    requires Books(s.reg.attempts, s.past.live) && l.live == s.past.live
    ensures MoveFollows(Try(s, a), l)
  {
    match a
    case DoFinish(who, ending) => FinishFollows(s, l, who, ending);
    case DoOwnerCallback(who) => OwnerCallbackFollows(s, l, who);
    case DoJoinTurn(who) => JoinTurnFollows(s, l, who);
    case DoJoinResumes(who, culprit) => JoinResumesFollows(s, l, who, culprit);
    case _ =>
  }

  lemma TryFollows(s: System, l: Ledger, a: Action)
    requires Follows(s, l) && Books(s.reg.attempts, s.past.live) && l.live == s.past.live
    ensures MoveFollows(Try(s, a), l)
  {
    if OnAttempts(a) {
      AttemptMoveFollows(s, l, a);
    } else if OnHandoffs(a) {
      HandoffMoveIsNeutral(s, a);
      NeutralMoveFollows(s, l, Try(s, a));
    } else {
      ShutdownMoveFollows(s, l, a);
    }
  }

  lemma CommitFollows(m: Move, log: seq<Event>)
    requires MoveFollows(m, Joins(log)) && m.next.log == log
    ensures Follows(Commit(m), Joins(Commit(m).log))
  {
    match m
    case Still(_) =>
    case Once(_, first) => JoinsNext(log, first);
    case Twice(_, first, second) =>
      JoinsNext(log, first);
      JoinsNext(log + [first], second);
  }

  lemma StepFollows(s: System, a: Action)
    requires Inv(s) && s.past == Past(s.log) && Follows(s, Joins(s.log))
    ensures Follows(Step(s, a), Joins(Step(s, a).log))
  {
    JoinsKnowLive(s.log);
    TryFollows(s, Joins(s.log), a);
    MoveLeavesLog(s, a);
    CommitFollows(Try(s, a), s.log);
  }

  lemma {:induction false} RunFollows(s: System, actions: seq<Action>)
    requires Inv(s) && s.past == Past(s.log) && Follows(s, Joins(s.log))
    ensures Follows(Exec(s, actions), Joins(Exec(s, actions).log))
    decreases |actions|
  {
    if actions != [] {
      StepFollows(s, actions[0]);
      StepKeepsInv(s, actions[0]);
      StepNotes(s, actions[0]);
      RunFollows(Step(s, actions[0]), actions[1..]);
    }
  }

  /** In every run the list holds exactly the failures that the log calls listed, and every join was fair. */
  lemma EveryRunIsFair(actions: seq<Action>)
    ensures var s := Exec(START, actions); Joins(s.log).fair && s.reg.failures == Listed(Joins(s.log))
  {
    RunFollows(START, actions);
  }

  // --- when a join returns ---

  lemma {:induction false} FairBefore(log: seq<Event>, j: nat)
    requires Joins(log).fair && j <= |log|
    ensures Joins(log[..j]).fair
    ensures j < |log| ==> IsFair(Joins(log[..j]), log[j])
  {
    if j == |log| {
      assert log[..j] == log;
    } else if j < |log| - 1 {
      FairBefore(log[..|log| - 1], j);
      assert log[..|log| - 1][..j] == log[..j];
    }
  }

  /** `log` binds `owner` to the attempt `t`, and neither binds it anew nor unregisters it later. */
  predicate Binds(e: Event, t: Token, owner: Coroutine) {
    || (e.Registered? && e.token == t && e.owner == Some(owner))
    || (e.OwnerBound? && e.token == t && e.coroutine == owner)
  }

  predicate Touches(e: Event, t: Token) {
    (e.Registered? || e.OwnerBound? || e.Unregistered?) && e.token == t
  }

  lemma {:induction false} BoundOwnerStays(log: seq<Event>, i: nat, t: Token, owner: Coroutine)
    requires i < |log| && Binds(log[i], t, owner)
    requires forall k | i < k < |log| :: !Touches(log[k], t)
    ensures t in Joins(log).owners && Joins(log).owners[t] == owner
  {
    if i < |log| - 1 {
      BoundOwnerStays(log[..|log| - 1], i, t, owner);
    }
  }

  lemma {:induction false} EndedHasEnded(log: seq<Event>, who: Coroutine)
    requires who in Joins(log).ended
    ensures Ended(who) in log
  {
    var before := log[..|log| - 1];
    assert log == before + [log[|log| - 1]];
    if log[|log| - 1] != Ended(who) {
      EndedHasEnded(before, who);
    }
  }

  /**
  Whenever a join returns normally, every owner that was bound to an attempt in its scope and is still
  registered there is the caller itself or has ended, and no recorded failure is left.
  */
  lemma JoinReturnsOnlyWhenIdle(actions: seq<Action>, i: nat, j: nat, t: Token, owner: Coroutine)
    requires var log := Exec(START, actions).log;
      && i < j < |log| && Binds(log[i], t, owner) && (forall k | i < k < j :: !Touches(log[k], t))
      && log[j].JoinReturned?
      && t in Past(log[..j]).live && InScope(Past(log[..j]).live[t], log[j].project)
    ensures var log := Exec(START, actions).log;
      (owner == log[j].who || Ended(owner) in log[..j]) && Listed(Joins(log[..j])) == []
  {
    var log := Exec(START, actions).log;
    EveryRunIsFair(actions);
    FairBefore(log, j);
    JoinsKnowLive(log[..j]);
    BoundOwnerStays(log[..j], i, t, owner);
    if owner != log[j].who { EndedHasEnded(log[..j], owner); }
  }

  // --- which failures are raised ---

  predicate Raises(e: Event, owner: Coroutine) {
    (e.FailureRaised? || e.GatherRaised?) && e.failure.owner == owner
  }

  /** How many failures have left the list before `log[k]` happens. */
  function Taken(log: seq<Event>): nat -> nat {
    (k: nat) => if k <= |log| then Joins(log[..k]).taken else 0
  }

  /** How many failures have been recorded before `log[k]` happens. */
  function Recorded(log: seq<Event>): nat -> nat {
    (k: nat) => if k <= |log| then |Joins(log[..k]).recorded| else 0
  }

  /** How many failures were recorded before the one at `i`. */
  function Ticket(log: seq<Event>, i: nat): nat
    requires i < |log|
  {
    Recorded(log)(i)
  }

  /** The failure recorded at `i` has not left the list when `log[k]` is about to happen. */
  predicate StillListed(log: seq<Event>, i: nat, k: nat)
    requires i < |log| && k <= |log|
  {
    i < k && Taken(log)(k) <= Ticket(log, i)
  }

  /** It leaves the list at `k`, and what is raised there is the failure of its owner. */
  predicate IsRaisedAt(log: seq<Event>, i: nat, k: nat)
    requires i < |log| && k < |log| && log[i].FailureRecorded?
  {
    StillListed(log, i, k) && !StillListed(log, i, k + 1) && Raises(log[k], log[i].failure.owner)
  }

  /** A gather raises the failure of another owner while it is listed. */
  predicate IsDroppedAt(log: seq<Event>, i: nat, k: nat)
    requires i < |log| && k < |log| && log[i].FailureRecorded?
  {
    StillListed(log, i, k) && log[k].GatherRaised? && log[k].failure.owner != log[i].failure.owner
  }

  lemma {:induction false} FairIsBounded(log: seq<Event>)
    requires Joins(log).fair
    ensures Joins(log).taken <= |Joins(log).recorded|
  {
    if log != [] {
      FairIsBounded(log[..|log| - 1]);
    }
  }

  lemma PrefixOneMore(log: seq<Event>, k: nat)
    requires k < |log|
    ensures Joins(log[..k + 1]) == Enter(Joins(log[..k]), log[k])
  {
    assert log[..k + 1] == log[..k] + [log[k]];
    JoinsNext(log[..k], log[k]);
  }

  /** What has been recorded stays recorded, and what has left the list does not come back. */
  lemma {:induction false} LedgerGrows(log: seq<Event>, k: nat, m: nat)
    requires Joins(log).fair && k <= m <= |log|
    ensures Joins(log[..k]).recorded <= Joins(log[..m]).recorded
    ensures Joins(log[..k]).taken <= Joins(log[..m]).taken
  {
    if k < m {
      LedgerGrows(log, k, m - 1);
      FairBefore(log, m - 1);
      FairIsBounded(log[..m - 1]);
      PrefixOneMore(log, m - 1);
    }
  }

  lemma RecordedThere(log: seq<Event>, i: nat, k: nat)
    requires Joins(log).fair && i < k <= |log| && log[i].FailureRecorded?
    ensures var ticket, recorded := |Joins(log[..i]).recorded|, Joins(log[..k]).recorded;
      ticket < |recorded| && recorded[ticket] == log[i].failure
  {
    PrefixOneMore(log, i);
    LedgerGrows(log, i + 1, k);
  }

  lemma ListedAtFirst(log: seq<Event>, i: nat)
    requires Joins(log).fair && i < |log| && log[i].FailureRecorded?
    ensures StillListed(log, i, i + 1)
  {
    FairBefore(log, i);
    FairIsBounded(log[..i]);
    PrefixOneMore(log, i);
  }

  /** A count that passes `ticket` does so at some step. */
  lemma {:induction false} PassesAt(count: nat -> nat, ticket: nat, from: nat, end: nat) returns (k: nat)
    requires from <= end && count(from) <= ticket < count(end)
    ensures from <= k < end && count(k) <= ticket < count(k + 1)
    decreases end
  {
    if count(end - 1) <= ticket {
      k := end - 1;
    } else {
      k := PassesAt(count, ticket, from, end - 1);
    }
  }

  lemma TakenGrows(log: seq<Event>, k: nat, m: nat)
    requires Joins(log).fair && k <= m <= |log|
    ensures Taken(log)(k) <= Taken(log)(m)
  {
    LedgerGrows(log, k, m);
  }

  /** One event takes the failure with this ticket off the list: it raises that failure, or clears the list. */
  lemma LeavingEntry(l: Ledger, e: Event, ticket: nat)
    requires IsFair(l, e) && l.taken <= ticket < Enter(l, e).taken && ticket < |l.recorded|
    ensures e.GatherRaised? || (e.FailureRaised? && e.failure == l.recorded[ticket])
  {
  }

  /** A failure leaves the list because it is raised, or because a gather raises one and clears the list. */
  lemma LeavingEvent(log: seq<Event>, i: nat, k: nat)
    requires Joins(log).fair && i < k < |log| && log[i].FailureRecorded?
    requires StillListed(log, i, k) && !StillListed(log, i, k + 1)
    ensures log[k].GatherRaised? || (log[k].FailureRaised? && log[k].failure == log[i].failure)
  {
    FairBefore(log, k);
    RecordedThere(log, i, k);
    PrefixOneMore(log, k);
    LeavingEntry(Joins(log[..k]), log[k], Ticket(log, i));
  }

  lemma GatherTakes(l: Ledger, e: Event, ticket: nat)
    requires e.GatherRaised? && ticket < |l.recorded|
    ensures Enter(l, e).taken > ticket
  {
  }

  lemma GatherTakesAll(log: seq<Event>, k: nat, ticket: nat)
    requires k < |log| && log[k].GatherRaised? && ticket < Recorded(log)(k)
    ensures Taken(log)(k + 1) > ticket
  {
    PrefixOneMore(log, k);
    GatherTakes(Joins(log[..k]), log[k], ticket);
  }

  lemma TicketIsRecorded(log: seq<Event>, i: nat, k: nat)
    requires Joins(log).fair && i < k <= |log| && log[i].FailureRecorded?
    ensures Ticket(log, i) < Recorded(log)(k)
  {
    RecordedThere(log, i, k);
  }

  /** A gather that raises a failure takes every listed one off the list. */
  lemma GatherClears(log: seq<Event>, i: nat, k: nat)
    requires Joins(log).fair && i < k < |log| && log[i].FailureRecorded? && log[k].GatherRaised?
    ensures !StillListed(log, i, k + 1)
  {
    TicketIsRecorded(log, i, k);
    GatherTakesAll(log, k, Ticket(log, i));
  }

  /** The list passes a ticket only once. */
  lemma LeavesOnce(log: seq<Event>, ticket: nat, k: nat, m: nat)
    requires Joins(log).fair && k < |log| && m < |log|
    requires Taken(log)(k) <= ticket < Taken(log)(k + 1) && Taken(log)(m) <= ticket < Taken(log)(m + 1)
    ensures k == m
  {
    if k < m {
      TakenGrows(log, k + 1, m);
    } else if m < k {
      TakenGrows(log, m + 1, k);
    }
  }

  /**
  A recorded failure is raised, as it leaves the list and before any later normal return of a join, if
  and only if no gather raised the failure of another owner while it was listed.
  */
  lemma RecordedFailureIsRaisedUnlessDropped(actions: seq<Action>, i: nat, j: nat)
    requires var log := Exec(START, actions).log;
      i < j < |log| && log[i].FailureRecorded? && log[j].JoinReturned?
    ensures var log := Exec(START, actions).log;
      (exists k :: i < k < j && IsRaisedAt(log, i, k)) <==> !(exists k :: i < k < j && IsDroppedAt(log, i, k))
  {
    var log := Exec(START, actions).log;
    EveryRunIsFair(actions);
    FairBefore(log, j);
    FairIsBounded(log[..j]);
    RecordedThere(log, i, j);
    ListedAtFirst(log, i);
    var k := PassesAt(Taken(log), Ticket(log, i), i + 1, j);
    LeavingEvent(log, i, k);
    forall m | i < m < j && IsDroppedAt(log, i, m) ensures m == k {
      GatherClears(log, i, m);
      LeavesOnce(log, Ticket(log, i), k, m);
    }
    forall m | i < m < j && IsRaisedAt(log, i, m) ensures m == k {
      LeavesOnce(log, Ticket(log, i), k, m);
    }
    assert IsRaisedAt(log, i, k) <==> !IsDroppedAt(log, i, k);
  }

  // --- a failure that is lost ---

  /** The part of a state that the run below looks at. */
  datatype View = View(reg: Registry, endings: map<Coroutine, Ending>, joins: map<Coroutine, Join>,
                       minted: set<Token>, log: seq<Event>)

  function Seen(s: System): View {
    View(s.reg, s.endings, s.joins, s.minted, s.log)
  }

  /** After `actions` the system looks like `v`, and no coroutine has any binding. */
  predicate Reaches(actions: seq<Action>, v: View) {
    Seen(Exec(START, actions)) == v && Exec(START, actions).contexts == map[]
  }

  lemma OneMore(before: seq<Action>, a: Action)
    ensures Exec(START, before + [a]) == Step(Exec(START, before), a)
  {
    ExecInTwo(START, before, [a]);
  }

  lemma ThenRegister(before: seq<Action>, v: View, project: Option<string>, task: Option<string>, key: Key,
                     owner: Coroutine, token: Token)
    returns (after: seq<Action>)
    requires Reaches(before, v) && !v.reg.closed && token !in v.minted && KeyOf(project, task) == Ok(key)
    ensures Reaches(after, v.(reg := Admit(v.reg, key, Some(owner), token), minted := v.minted + {token},
                              log := v.log + [Registered(token, key, Some(owner), None, None)]))
  {
    var a := DoRegister(0, project, task, Some(owner), token);
    after := before + [a];
    OneMore(before, a);
  }

  lemma ThenClose(before: seq<Action>, v: View) returns (after: seq<Action>)
    requires Reaches(before, v)
    ensures Reaches(after, v.(reg := v.reg.(closed := true), log := v.log + [Closed]))
  {
    after := before + [DoClose];
    OneMore(before, DoClose);
  }

  lemma ThenFails(before: seq<Action>, v: View, owner: Coroutine, what: string) returns (after: seq<Action>)
    requires Reaches(before, v) && owner !in v.endings
    ensures Reaches(after, v.(endings := v.endings[owner := Failed(what)], log := v.log + [Ended(owner)]))
  {
    after := before + [DoFinish(owner, Failed(what))];
    OneMore(before, DoFinish(owner, Failed(what)));
  }

  lemma ThenRecords(before: seq<Action>, v: View, owner: Coroutine, what: string) returns (after: seq<Action>)
    requires Reaches(before, v) && v.reg.closed && owner !in v.reg.recorded
    requires owner in v.endings && v.endings[owner] == Failed(what)
    ensures Reaches(after, v.(reg := OwnerFinished(v.reg, owner, Failed(what)),
                              log := v.log + [FailureRecorded(Failure(owner, what))]))
  {
    after := before + [DoOwnerCallback(owner)];
    OneMore(before, DoOwnerCallback(owner));
  }

  lemma ThenJoins(before: seq<Action>, v: View, who: Coroutine, project: Option<string>) returns (after: seq<Action>)
    requires Reaches(before, v)
    ensures Reaches(after, v.(joins := v.joins[who := Looping(project)]))
  {
    after := before + [DoJoin(who, project)];
    OneMore(before, DoJoin(who, project));
  }

  /** A turn of a join waits for `owners` or, if there are none, returns. */
  lemma ThenTurns(before: seq<Action>, v: View, who: Coroutine, project: Option<string>, owners: set<Coroutine>)
    returns (after: seq<Action>)
    requires Reaches(before, v) && who in v.joins && v.joins[who] == Looping(project) && v.reg.failures == []
    requires owners == ActiveOwners(v.reg, project, v.endings.Keys) - {who}
    ensures Reaches(after,
      if owners == {} then v.(joins := v.joins - {who}, log := v.log + [JoinReturned(who, project)])
      else v.(joins := v.joins[who := Gathering(project, owners)]))
  {
    after := before + [DoJoinTurn(who)];
    OneMore(before, DoJoinTurn(who));
  }

  lemma ThenGathers(before: seq<Action>, v: View, who: Coroutine, owner: Coroutine, what: string)
    returns (after: seq<Action>)
    requires Reaches(before, v) && who in v.joins && v.joins[who].Gathering? && v.joins[who].owners == {owner}
    requires owner in v.endings && v.endings[owner] == Failed(what)
    ensures Reaches(after, v.(reg := v.reg.(failures := [], recorded := {}), joins := v.joins - {who},
                              log := v.log + [GatherRaised(who, Failure(owner, what))]))
  {
    after := before + [DoJoinResumes(who, Some(owner))];
    OneMore(before, DoJoinResumes(who, Some(owner)));
  }

  /** Two attempts of two projects, run by the tasks 1 and 2. */
  function TwoAttempts(one: Key, two: Key, t: Token, u: Token): Registry {
    Admit(Admit(FRESH, one, Some(1), t), two, Some(2), u)
  }

  lemma OwnersOfTwo(r: Registry, one: Key, two: Key, t: Token, u: Token, p: Option<string>, q: Option<string>)
    requires r.attempts == TwoAttempts(one, two, t, u).attempts && r.owners == TwoAttempts(one, two, t, u).owners
    requires p.Some? && q.Some? && one.project == ProjectOf(p) && two.project == ProjectOf(q)
    requires one.project != two.project && t != u
    ensures ActiveOwners(r, p, {}) == {1} && ActiveOwners(r, q, {1, 2}) == {}
  {
    assert r.attempts[one] == {t} && r.attempts[two] == {u} && r.attempts.Keys == {one, two};
    assert r.owners[t] == 1;
  }

  lemma AdmittingStaysOpen(r: Registry, key: Key, owner: Coroutine, token: Token)
    ensures Admit(r, key, Some(owner), token).closed == r.closed
  {
  }

  lemma NothingReachesStart()
    ensures Reaches([], View(FRESH, map[], map[], {}, []))
  {
  }

  /** Two attempts are registered. */
  lemma LosingRunOpens(p: Option<string>, q: Option<string>, task: Option<string>, one: Key, two: Key,
                       t: Token, u: Token)
    returns (actions: seq<Action>, v: View)
    requires KeyOf(p, task) == Ok(one) && KeyOf(q, task) == Ok(two) && t != u
    ensures Reaches(actions, v)
    ensures v.reg == TwoAttempts(one, two, t, u) && v.endings == map[] && v.joins == map[]
    ensures forall e | e in v.log :: e.Registered?
  {
    hide Reaches, Admit, KeyOf;
    v := View(FRESH, map[], map[], {}, []);
    NothingReachesStart();
    AdmittingStaysOpen(FRESH, one, 1, t);
    actions := ThenRegister([], v, p, task, one, 1, t);
    v := v.(reg := Admit(v.reg, one, Some(1), t), minted := v.minted + {t},
            log := v.log + [Registered(t, one, Some(1), None, None)]);
    actions := ThenRegister(actions, v, q, task, two, 2, u);
    v := v.(reg := Admit(v.reg, two, Some(2), u), minted := v.minted + {u},
            log := v.log + [Registered(u, two, Some(2), None, None)]);
  }

  /** Task 3 joins one project and waits for `owners`. */
  lemma LosingRunJoins(before: seq<Action>, v: View, p: Option<string>, owners: set<Coroutine>)
    returns (actions: seq<Action>, next: View)
    requires Reaches(before, v) && v.joins == map[] && v.endings == map[] && v.reg.failures == []
    requires ActiveOwners(v.reg, p, {}) == owners && owners != {} && 3 !in owners
    ensures Reaches(actions, next) && next == v.(joins := map[3 := Gathering(p, owners)])
  {
    actions := ThenJoins(before, v, 3, p);
    next := v.(joins := map[3 := Looping(p)]);
    actions := ThenTurns(actions, next, 3, p, owners);
    next := v.(joins := map[3 := Gathering(p, owners)]);
  }

  /** Both owners fail, but only the failure of task 2 is recorded yet. */
  lemma LosingRunFails(before: seq<Action>, v: View, x: string, y: string)
    returns (actions: seq<Action>, next: View)
    requires Reaches(before, v) && v.endings == map[] && v.reg.closed && v.reg.recorded == {} && v.reg.failures == []
    ensures Reaches(actions, next) && next.joins == v.joins && next.endings == map[2 := Failed(x), 1 := Failed(y)]
    ensures next.reg == v.reg.(failures := [Failure(2, x)], recorded := {2})
    ensures next.log == v.log + [Ended(2)] + [FailureRecorded(Failure(2, x))] + [Ended(1)]
  {
    actions := ThenFails(before, v, 2, x);
    next := v.(endings := map[2 := Failed(x)], log := v.log + [Ended(2)]);
    actions := ThenRecords(actions, next, 2, x);
    next := next.(reg := OwnerFinished(v.reg, 2, Failed(x)), log := next.log + [FailureRecorded(Failure(2, x))]);
    actions := ThenFails(actions, next, 1, y);
    next := next.(endings := map[2 := Failed(x), 1 := Failed(y)], log := next.log + [Ended(1)]);
  }

  /** The gather of task 3 raises the failure of task 1; then task 4 joins the other project. */
  lemma LosingRunReturns(before: seq<Action>, v: View, p: Option<string>, q: Option<string>, y: string)
    returns (actions: seq<Action>, next: View)
    requires Reaches(before, v) && v.joins == map[3 := Gathering(p, {1})]
    requires 1 in v.endings && v.endings[1] == Failed(y)
    requires ActiveOwners(v.reg.(failures := [], recorded := {}), q, v.endings.Keys) == {}
    ensures Reaches(actions, next) && next.reg.failures == []
    ensures next.log == v.log + [GatherRaised(3, Failure(1, y))] + [JoinReturned(4, q)]
  {
    actions := ThenGathers(before, v, 3, 1, y);
    next := v.(reg := v.reg.(failures := [], recorded := {}), joins := map[],
               log := v.log + [GatherRaised(3, Failure(1, y))]);
    actions := ThenJoins(actions, next, 4, q);
    next := next.(joins := map[4 := Looping(q)]);
    actions := ThenTurns(actions, next, 4, q, {});
    next := next.(joins := map[], log := next.log + [JoinReturned(4, q)]);
  }

  /** The failure that `owner` recorded at `i` is never raised, although a join of `project` returns at `j`. */
  predicate LosesIn(log: seq<Event>, i: nat, j: nat, owner: Coroutine, project: Option<string>) {
    && i < j < |log| && log[i].FailureRecorded? && log[i].failure.owner == owner
    && log[j].JoinReturned? && log[j].project == project
    && forall k | 0 <= k < |log| :: !Raises(log[k], owner)
  }

  lemma LosingLog(log: seq<Event>, q: Option<string>, x: string, y: string)
    requires forall e | e in log :: e.Registered? || e.Closed?
    ensures LosesIn(log + [Ended(2)] + [FailureRecorded(Failure(2, x))] + [Ended(1)] + [GatherRaised(3, Failure(1, y))]
                    + [JoinReturned(4, q)], |log| + 1, |log| + 4, 2, q)
  {
    var whole := log + [Ended(2)] + [FailureRecorded(Failure(2, x))] + [Ended(1)] + [GatherRaised(3, Failure(1, y))]
      + [JoinReturned(4, q)];
    forall k | 0 <= k < |whole| ensures !Raises(whole[k], 2) {
      if k < |log| { assert whole[k] in log; }
    }
  }

  /**
  Two projects shut down by separate joins.  The owner of the second fails and its failure is recorded;
  then the gather of the first join raises its own owner's failure and clears the list.  The join of the
  second project returns normally, and nobody has raised the recorded failure.
  */
  lemma FailureCanBeLost(p: Option<string>, q: Option<string>, task: Option<string>, one: Key, two: Key,
                         t: Token, u: Token, x: string, y: string)
    returns (actions: seq<Action>, i: nat, j: nat)
    requires p.Some? && q.Some? && KeyOf(p, task) == Ok(one) && KeyOf(q, task) == Ok(two)
    requires one.project != two.project && t != u
    ensures LosesIn(Exec(START, actions).log, i, j, 2, q) && Exec(START, actions).reg.failures == []
  {
    var v;
    actions, v := LosingRunOpens(p, q, task, one, two, t, u);
    actions := ThenClose(actions, v);
    v := v.(reg := v.reg.(closed := true), log := v.log + [Closed]);
    LosingLog(v.log, q, x, y);
    i, j := |v.log| + 1, |v.log| + 4;
    OwnersOfTwo(v.reg, one, two, t, u, p, q);
    actions, v := LosingRunJoins(actions, v, p, {1});
    actions, v := LosingRunFails(actions, v, x, y);
    OwnersOfTwo(v.reg.(failures := [], recorded := {}), one, two, t, u, p, q);
    actions, v := LosingRunReturns(actions, v, p, q, y);
  }

  // --- accounting ---

  function Recordings(log: seq<Event>): multiset<Failure> {
    if log == [] then multiset{}
    else
      var before, last := Recordings(log[..|log| - 1]), log[|log| - 1];
      if last.FailureRecorded? then before + multiset{last.failure} else before
  }

  /** Failures that a join raised from the list. */
  function Poppings(log: seq<Event>): multiset<Failure> {
    if log == [] then multiset{}
    else
      var before, last := Poppings(log[..|log| - 1]), log[|log| - 1];
      if last.FailureRaised? then before + multiset{last.failure} else before
  }

  /** Failures that were listed when a gather raised. */
  function Clearings(log: seq<Event>): multiset<Failure> {
    if log == [] then multiset{}
    else
      var before, last := Clearings(log[..|log| - 1]), log[|log| - 1];
      if last.GatherRaised? then before + multiset(Listed(Joins(log[..|log| - 1]))) else before
  }

  lemma ListedNext(l: Ledger, e: Event)
    requires l.taken <= |l.recorded| && IsFair(l, e)
    ensures var listed, next := Listed(l), Listed(Enter(l, e));
      if e.FailureRecorded? then next == listed + [e.failure]
      else if e.FailureRaised? then listed == [e.failure] + next
      else if e.GatherRaised? then next == []
      else next == listed
  {
    if e.FailureRecorded? {
      assert (l.recorded + [e.failure])[l.taken..] == l.recorded[l.taken..] + [e.failure];
    } else if e.FailureRaised? {
      assert l.recorded[l.taken..] == [l.recorded[l.taken]] + l.recorded[l.taken + 1..];
    } else if e.GatherRaised? {
      assert l.recorded[|l.recorded|..] == [];
    }
  }

  lemma {:induction false} LogIsBalanced(log: seq<Event>)
    requires Joins(log).fair
    ensures Recordings(log) == Poppings(log) + Clearings(log) + multiset(Listed(Joins(log)))
  {
    if log != [] {
      LogIsBalanced(log[..|log| - 1]);
      FairIsBounded(log[..|log| - 1]);
      ListedNext(Joins(log[..|log| - 1]), log[|log| - 1]);
    }
  }

  /** Every recorded failure has been raised from the list, is still on it, or was on it when a gather cleared it. */
  lemma FailuresAreAccountedFor(actions: seq<Action>)
    ensures var s := Exec(START, actions);
      Recordings(s.log) == Poppings(s.log) + Clearings(s.log) + multiset(s.reg.failures)
  {
    EveryRunIsFair(actions);
    LogIsBalanced(Exec(START, actions).log);
  }
}
