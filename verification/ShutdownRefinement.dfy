/**
What each operation does, told without the registry: from the log, the bindings of the coroutine that
calls it, and nothing else.  The registry refines this telling in every run.
*/
module ShutdownRefinement {
  import opened Wrappers
  import opened Text
  import opened AdmissionRegistry
  import opened ShutdownProtocol
  import opened ShutdownTheorems
  import opened ShutdownJoins

  // --- reading a log ---

  /** A handoff that was reserved and neither settled nor revoked. */
  predicate IsPending(log: seq<Event>, t: Token) {
    Reserved(t) in log && Settled(t) !in log && Revoked(t) !in log
  }

  predicate IsLive(log: seq<Event>, t: Token) {
    t in Past(log).live
  }

  /** The token on top of a stack, if this registry bound it there. */
  function OwnTop(stack: seq<Binding>): Option<Token> {
    if stack != [] && stack[|stack| - 1].Bound? && stack[|stack| - 1].mine then Some(stack[|stack| - 1].token) else None
  }

  function BoundHandoff(log: seq<Event>, ctx: Context): Option<Token> {
    var top := OwnTop(ctx.handoff);
    if top.Some? && IsPending(log, top.value) then top else None
  }

  function BoundDriver(log: seq<Event>, ctx: Context): Option<Token> {
    var top := OwnTop(ctx.driver);
    if top.Some? && IsLive(log, top.value) then top else None
  }

  /** The owners whose failure was recorded after the last one that a join raised. */
  function RecordedSince(log: seq<Event>): set<Coroutine> {
    if log == [] then {}
    else
      var before, last := RecordedSince(log[..|log| - 1]), log[|log| - 1];
      if last.FailureRecorded? then before + {last.failure.owner}
      else if last.FailureRaised? || last.GatherRaised? then {}
      else before
  }

  /** Tasks that have not ended and own a live attempt in scope. */
  function OwnersAtWork(log: seq<Event>, project: Option<string>): set<Coroutine> {
    var l := Joins(log);
    set t | t in l.owners && t in l.live && InScope(l.live[t], project) && l.owners[t] !in l.ended :: l.owners[t]
  }

  // --- the telling ---

  /** A state without the registry and without the summary of the log. */
  datatype Outline = Outline(
    contexts: map<Coroutine, Context>, endings: map<Coroutine, Ending>, joins: map<Coroutine, Join>,
    waiters: set<Coroutine>, minted: set<Token>, log: seq<Event>)

  const BEGINNING := Outline(map[], map[], map[], {}, {}, [])

  function OutlineOf(s: System): Outline {
    Outline(s.contexts, s.endings, s.joins, s.waiters, s.minted, s.log)
  }

  function Bindings(o: Outline, c: Coroutine): Context {
    if c in o.contexts then o.contexts[c] else Context([], [])
  }

  function Logged(o: Outline, events: seq<Event>): Outline {
    o.(log := o.log + events)
  }

  /**
  An attempt enters while admission is open, and afterwards only under a pending handoff or a live driver
  that the coroutine has bound; the handoff is thereby settled.
  */
  function TellRegister(o: Outline, who: Coroutine, project: Option<string>, task: Option<string>,
                        owner: Option<Coroutine>, token: Token): Outline
  {
    var key := KeyOf(project, task);
    var handoff, driver := BoundHandoff(o.log, Bindings(o, who)), BoundDriver(o.log, Bindings(o, who));
    if token in o.minted || key.Err? || (Closed in o.log && handoff.None? && driver.None?) then o
    else
      Logged(o.(minted := o.minted + {token}),
             [Registered(token, key.value, owner, handoff, driver)]
             + if handoff.Some? then [Settled(handoff.value)] else [])
  }

  /** An attempt leaves when it is live under that very task. */
  function TellUnregister(o: Outline, project: Option<string>, task: Option<string>, token: Token): Outline {
    var key := KeyOf(project, task);
    if key.Ok? && IsLive(o.log, token) && Past(o.log).live[token] == key.value
    then Logged(o, [Unregistered(token, key.value)]) else o
  }

  function TellBindOwner(o: Outline, token: Token, owner: Coroutine): Outline {
    if IsLive(o.log, token) then Logged(o, [OwnerBound(token, owner)]) else o
  }

  function TellBindDriver(o: Outline, who: Coroutine, token: Token): Outline {
    if !IsLive(o.log, token) then o
    else
      var ctx := Bindings(o, who);
      Logged(o.(contexts := o.contexts[who := ctx.(driver := ctx.driver + [Bound(true, token)])]),
             [DriverBound(token, who)])
  }

  function TellBindHandoff(o: Outline, who: Coroutine, token: Token): Outline {
    if !IsPending(o.log, token) then o
    else
      var ctx := Bindings(o, who);
      Logged(o.(contexts := o.contexts[who := ctx.(handoff := ctx.handoff + [Bound(true, token)])]),
             [HandoffBound(token, who)])
  }

  function TellReserve(o: Outline, token: Token): Outline {
    if token in o.minted || Closed in o.log then o
    else Logged(o.(minted := o.minted + {token}), [Reserved(token)])
  }

  function TellRetain(o: Outline, who: Coroutine): Outline {
    var token := BoundHandoff(o.log, Bindings(o, who));
    if token.None? then o else Logged(o, [Retained(token.value)])
  }

  /** A release settles once there are as many as one reservation and its retains. */
  function TellRelease(o: Outline, token: Token): Outline {
    if !IsPending(o.log, token) then o
    else
      Logged(o, [Released(token)]
                + if multiset(o.log)[Released(token)] >= multiset(o.log)[Retained(token)] then [Settled(token)] else [])
  }

  function TellReleaseCurrent(o: Outline, who: Coroutine): Outline {
    var token := BoundHandoff(o.log, Bindings(o, who));
    if token.None? then o else TellRelease(o, token.value)
  }

  function TellRevoke(o: Outline, token: Token): Outline {
    if IsPending(o.log, token) then Logged(o, [Revoked(token)]) else o
  }

  function TellClose(o: Outline, waiters: set<Coroutine>): Outline {
    Logged(o.(waiters := o.waiters + waiters), [Closed])
  }

  ghost predicate NothingPends(log: seq<Event>) {
    forall t :: !IsPending(log, t)
  }

  ghost function TellWaiterWakes(o: Outline, who: Coroutine): Outline {
    if who in o.waiters && NothingPends(o.log)
    then Logged(o.(waiters := o.waiters - {who}), [DrainReturned(who)]) else o
  }

  function TellFinish(o: Outline, who: Coroutine, ending: Ending): Outline {
    if who in o.endings then o else Logged(o.(endings := o.endings[who := ending]), [Ended(who)])
  }

  /** A failure counts when admission is closed, once until a join has raised one. */
  function TellOwnerCallback(o: Outline, owner: Coroutine): Outline {
    if owner in o.endings && o.endings[owner].Failed? && Closed in o.log && owner !in RecordedSince(o.log)
    then Logged(o, [FailureRecorded(Failure(owner, o.endings[owner].what))]) else o
  }

  /** A join raises the oldest recorded failure, waits for the other owners at work in scope, or returns. */
  function TellJoinTurn(o: Outline, who: Coroutine): Outline {
    if who !in o.joins || !o.joins[who].Looping? then o
    else
      var listed := Listed(Joins(o.log));
      var owners := OwnersAtWork(o.log, o.joins[who].project) - {who};
      if listed != [] then Logged(o.(joins := o.joins - {who}), [FailureRaised(who, listed[0])])
      else if owners == {} then Logged(o.(joins := o.joins - {who}), [JoinReturned(who, o.joins[who].project)])
      else o.(joins := o.joins[who := Gathering(o.joins[who].project, owners)])
  }

  /** A gather goes on when all its owners have ended: it raises the failure of one, or loops when none failed. */
  function TellJoinResumes(o: Outline, who: Coroutine, culprit: Option<Coroutine>): Outline {
    if who !in o.joins || !o.joins[who].Gathering? || !(o.joins[who].owners <= o.endings.Keys) then o
    else if culprit.None? then
      if exists c | c in o.joins[who].owners :: o.endings[c].Failed? then o
      else o.(joins := o.joins[who := Looping(o.joins[who].project)])
    else if culprit.value in o.joins[who].owners && o.endings[culprit.value].Failed? then
      Logged(o.(joins := o.joins - {who}),
             [GatherRaised(who, Failure(culprit.value, o.endings[culprit.value].what))])
    else o
  }

  function WithoutTop(stack: seq<Binding>): seq<Binding> {
    if stack == [] then [] else stack[..|stack| - 1]
  }

  function TopOf(stack: seq<Binding>): Binding {
    if stack == [] then Unbound else stack[|stack| - 1]
  }

  ghost function Tell(o: Outline, a: Action): Outline {
    match a
    case DoRegister(who, project, task, owner, token) => TellRegister(o, who, project, task, owner, token)
    case DoUnregister(project, task, token) => TellUnregister(o, project, task, token)
    case DoBindOwner(token, owner) => TellBindOwner(o, token, owner)
    case DoBindDriver(who, token) => TellBindDriver(o, who, token)
    case DoUnbindDriver(who) =>
      var ctx := Bindings(o, who);
      o.(contexts := o.contexts[who := ctx.(driver := WithoutTop(ctx.driver))])
    case DoReserve(token) => TellReserve(o, token)
    case DoBindHandoff(who, token) => TellBindHandoff(o, who, token)
    case DoUnbindHandoff(who) =>
      var ctx := Bindings(o, who);
      o.(contexts := o.contexts[who := ctx.(handoff := WithoutTop(ctx.handoff))])
    case DoRetain(who) => TellRetain(o, who)
    case DoReleaseCurrent(who) => TellReleaseCurrent(o, who)
    case DoRelease(token) => TellRelease(o, token)
    case DoRevoke(token) => TellRevoke(o, token)
    case DoClose => TellClose(o, {})
    case DoCloseAndWait(who) => TellClose(o, {who})
    case DoWaiterWakes(who) => TellWaiterWakes(o, who)
    case DoSpawn(who, child) =>
      if child in o.contexts then o
      else
        var ctx := Bindings(o, who);
        o.(contexts := o.contexts[child := Context([TopOf(ctx.handoff)], [TopOf(ctx.driver)])])
    case DoFinish(who, ending) => TellFinish(o, who, ending)
    case DoOwnerCallback(owner) => TellOwnerCallback(o, owner)
    case DoJoin(who, project) => o.(joins := o.joins[who := Looping(project)])
    case DoJoinTurn(who) => TellJoinTurn(o, who)
    case DoJoinResumes(who, culprit) => TellJoinResumes(o, who, culprit)
  }

  ghost function TellAll(o: Outline, actions: seq<Action>): Outline
    decreases |actions|
  {
    if actions == [] then o else TellAll(Tell(o, actions[0]), actions[1..])
  }

  // --- what the registry keeps of the log ---

  function PendingAfter(pending: set<Token>, e: Event): set<Token> {
    if e.Reserved? then pending + {e.token}
    else if e.Settled? || e.Revoked? then pending - {e.token}
    else pending
  }

  function RecordedAfter(recorded: set<Coroutine>, e: Event): set<Coroutine> {
    if e.FailureRecorded? then recorded + {e.failure.owner}
    else if e.FailureRaised? || e.GatherRaised? then {}
    else recorded
  }

  /** A move leaves the pending handoffs and the recorded owners that its events call for. */
  predicate IsTraced(s: System, m: Move) {
    var pending, recorded := s.reg.refs.Keys, s.reg.recorded;
    match m
    case Still(next) => next.reg.refs.Keys == pending && next.reg.recorded == recorded
    case Once(next, first) =>
      && next.reg.refs.Keys == PendingAfter(pending, first) && next.reg.recorded == RecordedAfter(recorded, first)
      && (first.Reserved? ==> !s.reg.closed && first.token !in s.minted)
    case Twice(next, first, second) =>
      && next.reg.refs.Keys == PendingAfter(PendingAfter(pending, first), second)
      && next.reg.recorded == RecordedAfter(RecordedAfter(recorded, first), second)
      && !first.Reserved? && !second.Reserved?
  }

  function WithoutHandoff(refs: set<Token>, handoff: Option<Token>): set<Token> {
    if handoff.Some? then refs - {handoff.value} else refs
  }

  lemma RegisterSettles(r: Registry, ctx: Context, project: Option<string>, task: Option<string>,
                        owner: Option<Coroutine>, token: Token)
    ensures var effect := Register(r, ctx, project, task, owner, token);
      && effect.next.recorded == r.recorded
      && (effect.result.Ok? ==> effect.next.refs.Keys == WithoutHandoff(r.refs.Keys, PendingHandoff(r, ctx)))
  {
  }

  lemma EntryIsTraced(s: System, m: Move, handoff: Option<Token>)
    requires m.next.reg.recorded == s.reg.recorded
    requires m.next.reg.refs.Keys == WithoutHandoff(s.reg.refs.Keys, handoff)
    requires !m.Still? && m.first.Registered?
    requires if handoff.Some? then m.Twice? && m.second == Settled(handoff.value) else m.Once?
    ensures IsTraced(s, m)
  {
  }

  lemma RegisterIsTraced(s: System, who: Coroutine, project: Option<string>, task: Option<string>,
                         owner: Option<Coroutine>, token: Token)
    ensures IsTraced(s, TryRegister(s, who, project, task, owner, token))
  {
    var m := TryRegister(s, who, project, task, owner, token);
    if !m.Still? {
      RegisterSettles(s.reg, ContextOf(s, who), project, task, owner, token);
      EntryIsTraced(s, m, PendingHandoff(s.reg, ContextOf(s, who)));
    }
  }

  lemma AttemptMoveIsTraced(s: System, a: Action)
    requires OnAttempts(a)
    ensures IsTraced(s, Try(s, a))
  {
    hide KeyOf;
    match a
    case DoRegister(who, project, task, owner, token) => RegisterIsTraced(s, who, project, task, owner, token);
    case _ =>
  }

  lemma ReleaseIsTraced(s: System, token: Token)
    ensures IsTraced(s, TryRelease(s, token))
  {
  }

  lemma ReferenceMoveIsTraced(s: System, a: Action)
    requires OnReferences(a)
    ensures IsTraced(s, Try(s, a))
  {
    match a
    case DoRelease(token) => ReleaseIsTraced(s, token);
    case DoReleaseCurrent(who) =>
      var token := PendingHandoff(s.reg, ContextOf(s, who));
      if token.Some? { ReleaseIsTraced(s, token.value); }
    case _ =>
  }

  lemma HandoffMoveIsTraced(s: System, a: Action)
    requires OnHandoffs(a)
    ensures IsTraced(s, Try(s, a))
  {
    if OnReferences(a) { ReferenceMoveIsTraced(s, a); }
  }

  lemma ShutdownMoveIsTraced(s: System, a: Action)
    requires !OnAttempts(a) && !OnHandoffs(a)
    ensures IsTraced(s, Try(s, a))
  {
  }

  lemma MoveIsTraced(s: System, a: Action)
    ensures IsTraced(s, Try(s, a))
  {
    if OnAttempts(a) {
      AttemptMoveIsTraced(s, a);
    } else if OnHandoffs(a) {
      HandoffMoveIsTraced(s, a);
    } else {
      ShutdownMoveIsTraced(s, a);
    }
  }

  /** The handoffs that a history says are pending, and the reservations of a log. */
  ghost predicate Traced(refs: set<Token>, recorded: set<Coroutine>, h: History, log: seq<Event>) {
    && refs == h.reserved - h.ended
    && recorded == RecordedSince(log)
    && forall t | Reserved(t) in log :: t in h.reserved
  }

  lemma RecordedNext(log: seq<Event>, e: Event)
    ensures RecordedSince(log + [e]) == RecordedAfter(RecordedSince(log), e)
  {
    assert (log + [e])[..|log|] == log;
  }

  lemma PendingNext(h: History, e: Event)
    requires e.Reserved? ==> !h.closed && e.token !in h.ended
    ensures var next := Absorb(h, e); next.reserved - next.ended == PendingAfter(h.reserved - h.ended, e)
  {
  }

  lemma EventIsTraced(refs: set<Token>, recorded: set<Coroutine>, h: History, log: seq<Event>, e: Event)
    requires Traced(refs, recorded, h, log)
    requires e.Reserved? ==> !h.closed && e.token !in h.ended
    ensures Traced(PendingAfter(refs, e), RecordedAfter(recorded, e), Absorb(h, e), log + [e])
  {
    RecordedNext(log, e);
    PendingNext(h, e);
    assert h.reserved <= Absorb(h, e).reserved;
  }

  lemma StepIsTraced(s: System, a: Action)
    requires Inv(s) && Traced(s.reg.refs.Keys, s.reg.recorded, s.past, s.log)
    ensures var next := Step(s, a); Traced(next.reg.refs.Keys, next.reg.recorded, next.past, next.log)
  {
    MoveIsTraced(s, a);
    MoveLeavesLog(s, a);
    var refs, recorded := s.reg.refs.Keys, s.reg.recorded;
    match Try(s, a)
    case Still(_) =>
    case Once(_, first) => EventIsTraced(refs, recorded, s.past, s.log, first);
    case Twice(_, first, second) =>
      EventIsTraced(refs, recorded, s.past, s.log, first);
      EventIsTraced(PendingAfter(refs, first), RecordedAfter(recorded, first), Absorb(s.past, first), s.log + [first],
                    second);
  }

  /** Everything that a state must keep for the telling to be read off its registry. */
  ghost predicate IsReadable(s: System) {
    && Inv(s) && s.past == Past(s.log) && Follows(s, Joins(s.log))
    && Traced(s.reg.refs.Keys, s.reg.recorded, s.past, s.log)
  }

  lemma StepStaysReadable(s: System, a: Action)
    requires IsReadable(s)
    ensures IsReadable(Step(s, a))
  {
    StepKeepsInv(s, a);
    StepNotes(s, a);
    StepFollows(s, a);
    StepIsTraced(s, a);
  }

  lemma {:induction false} PastReserved(log: seq<Event>, t: Token)
    requires t in Past(log).reserved
    ensures Reserved(t) in log
  {
    var before := log[..|log| - 1];
    assert log == before + [log[|log| - 1]];
    if log[|log| - 1] != Reserved(t) {
      PastReserved(before, t);
    }
  }

  /** The registry as the log shows it. */
  ghost predicate Shows(r: Registry, log: seq<Event>) {
    && (r.closed <==> Closed in log)
    && (forall t :: t in r.refs <==> IsPending(log, t))
    && (forall t | t in r.refs :: r.refs[t] + multiset(log)[Released(t)] == 1 + multiset(log)[Retained(t)])
    && (forall t :: Active(r, t) <==> IsLive(log, t))
    && Books(r.attempts, Past(log).live)
    && r.failures == Listed(Joins(log)) && r.owners == Joins(log).owners && r.recorded == RecordedSince(log)
  }

  lemma PendingIsPending(s: System, t: Token)
    requires IsReadable(s)
    ensures t in s.reg.refs <==> IsPending(s.log, t)
  {
    PastCounts(s.log, t);
    if t in s.past.reserved { PastReserved(s.log, t); }
  }

  lemma ReadableShows(s: System)
    requires IsReadable(s)
    ensures Shows(s.reg, s.log)
  {
    forall t ensures t in s.reg.refs <==> IsPending(s.log, t) {
      PendingIsPending(s, t);
    }
    forall t | t in s.reg.refs
      ensures s.reg.refs[t] + multiset(s.log)[Released(t)] == 1 + multiset(s.log)[Retained(t)]
    {
      PastCounts(s.log, t);
    }
    PastCounts(s.log, Uuid(""));
    forall t ensures Active(s.reg, t) <==> IsLive(s.log, t) {
      ActiveIsLive(s.reg, s.past.live, t);
    }
  }

  // --- the registry refines the telling ---

  lemma BindingsAreRead(r: Registry, log: seq<Event>, ctx: Context)
    requires Shows(r, log)
    ensures PendingHandoff(r, ctx) == BoundHandoff(log, ctx) && LiveDriver(r, ctx) == BoundDriver(log, ctx)
  {
  }

  lemma CommitTells(m: Move)
    ensures OutlineOf(Commit(m)) ==
      match m
      case Still(next) => OutlineOf(next)
      case Once(next, first) => Logged(OutlineOf(next), [first])
      case Twice(next, first, second) => Logged(OutlineOf(next), [first] + [second])
  {
    if m.Twice? {
      assert m.next.log + [m.first] + [m.second] == m.next.log + ([m.first] + [m.second]);
    }
  }

  lemma RegisterIsRead(r: Registry, log: seq<Event>, ctx: Context, project: Option<string>, task: Option<string>,
                       owner: Option<Coroutine>, token: Token)
    requires Shows(r, log)
    ensures Register(r, ctx, project, task, owner, token).result.Err? <==>
            KeyOf(project, task).Err? || (Closed in log && BoundHandoff(log, ctx).None? && BoundDriver(log, ctx).None?)
  {
    BindingsAreRead(r, log, ctx);
    hide KeyOf, PendingHandoff, LiveDriver;
  }

  lemma RegisterTells(s: System, who: Coroutine, project: Option<string>, task: Option<string>,
                      owner: Option<Coroutine>, token: Token)
    requires Shows(s.reg, s.log)
    ensures OutlineOf(Commit(TryRegister(s, who, project, task, owner, token))) ==
            TellRegister(OutlineOf(s), who, project, task, owner, token)
  {
    hide Shows, Register, KeyOf, PendingHandoff, LiveDriver, BoundHandoff, BoundDriver;
    var o, ctx := OutlineOf(s), ContextOf(s, who);
    BindingsAreRead(s.reg, s.log, ctx);
    RegisterIsRead(s.reg, s.log, ctx, project, task, owner, token);
    assert ctx == Bindings(o, who);
    CommitTells(TryRegister(s, who, project, task, owner, token));
    var key := KeyOf(project, task);
    if key.Ok? {
      var entry := Registered(token, key.value, owner, BoundHandoff(s.log, ctx), BoundDriver(s.log, ctx));
      assert [entry] + [] == [entry];
    }
  }

  lemma UnregisterTells(s: System, project: Option<string>, task: Option<string>, token: Token)
    requires Shows(s.reg, s.log)
    ensures OutlineOf(Commit(TryUnregister(s, project, task, token))) == TellUnregister(OutlineOf(s), project, task, token)
  {
    CommitTells(TryUnregister(s, project, task, token));
  }

  lemma BindsTell(s: System, who: Coroutine, token: Token)
    requires Shows(s.reg, s.log)
    ensures OutlineOf(Commit(TryBindOwner(s, token, who))) == TellBindOwner(OutlineOf(s), token, who)
    ensures OutlineOf(Commit(TryBindDriver(s, who, token))) == TellBindDriver(OutlineOf(s), who, token)
    ensures OutlineOf(Commit(TryBindHandoff(s, who, token))) == TellBindHandoff(OutlineOf(s), who, token)
  {
    CommitTells(TryBindOwner(s, token, who));
    CommitTells(TryBindDriver(s, who, token));
    CommitTells(TryBindHandoff(s, who, token));
  }

  lemma ReserveTells(s: System, token: Token)
    requires Shows(s.reg, s.log)
    ensures OutlineOf(Commit(TryReserve(s, token))) == TellReserve(OutlineOf(s), token)
  {
    CommitTells(TryReserve(s, token));
  }

  lemma RetainTells(s: System, who: Coroutine)
    requires Shows(s.reg, s.log)
    ensures OutlineOf(Commit(TryRetain(s, who))) == TellRetain(OutlineOf(s), who)
  {
    BindingsAreRead(s.reg, s.log, ContextOf(s, who));
    CommitTells(TryRetain(s, who));
  }

  lemma ReleaseTells(s: System, token: Token)
    requires Shows(s.reg, s.log)
    ensures OutlineOf(Commit(TryRelease(s, token))) == TellRelease(OutlineOf(s), token)
  {
    CommitTells(TryRelease(s, token));
    assert [Released(token)] + [] == [Released(token)];
  }

  lemma ReleaseCurrentTells(s: System, who: Coroutine)
    requires Shows(s.reg, s.log)
    ensures OutlineOf(Commit(TryReleaseCurrent(s, who))) == TellReleaseCurrent(OutlineOf(s), who)
  {
    BindingsAreRead(s.reg, s.log, ContextOf(s, who));
    var token := PendingHandoff(s.reg, ContextOf(s, who));
    if token.Some? { ReleaseTells(s, token.value); }
  }

  lemma RevokeTells(s: System, token: Token)
    requires Shows(s.reg, s.log)
    ensures OutlineOf(Commit(TryRevoke(s, token))) == TellRevoke(OutlineOf(s), token)
  {
    CommitTells(TryRevoke(s, token));
  }

  lemma WaiterWakesTells(s: System, who: Coroutine)
    requires Shows(s.reg, s.log)
    ensures OutlineOf(Commit(TryWaiterWakes(s, who))) == TellWaiterWakes(OutlineOf(s), who)
  {
    CommitTells(TryWaiterWakes(s, who));
    assert s.reg.refs == map[] <==> forall t :: t !in s.reg.refs;
  }

  lemma OwnerCallbackTells(s: System, owner: Coroutine)
    requires Shows(s.reg, s.log)
    ensures OutlineOf(Commit(TryOwnerCallback(s, owner))) == TellOwnerCallback(OutlineOf(s), owner)
  {
    CommitTells(TryOwnerCallback(s, owner));
  }

  lemma OwnersAreRead(r: Registry, live: map<Token, Key>, l: Ledger, project: Option<string>, c: Coroutine)
    requires Books(r.attempts, live) && l.live == live && r.owners == l.owners
    ensures c in ActiveOwners(r, project, l.ended) <==>
            exists t :: t in l.owners && t in l.live && InScope(l.live[t], project) && l.owners[t] !in l.ended && l.owners[t] == c
  {
    if c in ActiveOwners(r, project, l.ended) {
      var t, k :| t in r.owners && k in r.attempts && t in r.attempts[k]
        && (project.None? || k.project == ProjectOf(project)) && r.owners[t] !in l.ended && c == r.owners[t];
      assert t in l.live && l.live[t] == k;
    }
    if t :| t in l.owners && t in l.live && InScope(l.live[t], project) && l.owners[t] !in l.ended && l.owners[t] == c {
      assert t in r.attempts[l.live[t]];
    }
  }

  lemma OwnersAreAtWork(r: Registry, log: seq<Event>, project: Option<string>)
    requires Books(r.attempts, Past(log).live) && r.owners == Joins(log).owners
    ensures ActiveOwners(r, project, Joins(log).ended) == OwnersAtWork(log, project)
  {
    JoinsKnowLive(log);
    forall c ensures c in ActiveOwners(r, project, Joins(log).ended) <==> c in OwnersAtWork(log, project) {
      OwnersAreRead(r, Past(log).live, Joins(log), project, c);
    }
  }

  /** What a turn of a join finds is what the log says. */
  lemma RoundIsRead(r: Registry, log: seq<Event>, who: Coroutine, project: Option<string>)
    requires Shows(r, log)
    ensures var (next, round) := JoinRound(r, who, project, Joins(log).ended);
      var listed, owners := Listed(Joins(log)), OwnersAtWork(log, project) - {who};
      round == if listed != [] then Reported(listed[0]) else if owners == {} then Finished else Waiting(owners)
  {
    OwnersAreAtWork(r, log, project);
  }

  lemma JoinTurnTells(s: System, who: Coroutine)
    requires Shows(s.reg, s.log) && s.endings.Keys == Joins(s.log).ended
    ensures OutlineOf(Commit(TryJoinTurn(s, who))) == TellJoinTurn(OutlineOf(s), who)
  {
    hide Shows, JoinRound, Joins, Listed, OwnersAtWork;
    if who in s.joins && s.joins[who].Looping? {
      RoundIsRead(s.reg, s.log, who, s.joins[who].project);
      CommitTells(TryJoinTurn(s, who));
    }
  }

  lemma JoinResumesTells(s: System, who: Coroutine, culprit: Option<Coroutine>)
    ensures OutlineOf(Commit(TryJoinResumes(s, who, culprit))) == TellJoinResumes(OutlineOf(s), who, culprit)
  {
    CommitTells(TryJoinResumes(s, who, culprit));
  }

  lemma UnbindTells(s: System, a: Action)
    requires a.DoUnbindDriver? || a.DoUnbindHandoff?
    ensures OutlineOf(Step(s, a)) == Tell(OutlineOf(s), a)
  {
  }

  lemma AttemptStepTells(s: System, a: Action)
    requires Shows(s.reg, s.log) && OnAttempts(a)
    ensures OutlineOf(Step(s, a)) == Tell(OutlineOf(s), a)
  {
    hide Shows, Commit, TryRegister, TryUnregister, TryBindOwner, TryBindDriver;
    hide TellRegister, TellUnregister, TellBindOwner, TellBindDriver;
    match a
    case DoRegister(who, project, task, owner, token) => RegisterTells(s, who, project, task, owner, token);
    case DoUnregister(project, task, token) => UnregisterTells(s, project, task, token);
    case DoBindOwner(token, owner) => BindsTell(s, owner, token);
    case DoBindDriver(who, token) => BindsTell(s, who, token);
    case DoUnbindDriver(_) => UnbindTells(s, a);
  }

  lemma HandoffStepTells(s: System, a: Action)
    requires Shows(s.reg, s.log) && OnHandoffs(a)
    ensures OutlineOf(Step(s, a)) == Tell(OutlineOf(s), a)
  {
    hide Shows, Commit, TryReserve, TryBindHandoff, TryRevoke, TryRetain, TryReleaseCurrent, TryRelease;
    hide TellReserve, TellBindHandoff, TellRevoke, TellRetain, TellReleaseCurrent, TellRelease;
    match a
    case DoReserve(token) => ReserveTells(s, token);
    case DoBindHandoff(who, token) => BindsTell(s, who, token);
    case DoUnbindHandoff(_) => UnbindTells(s, a);
    case DoRetain(who) => RetainTells(s, who);
    case DoReleaseCurrent(who) => ReleaseCurrentTells(s, who);
    case DoRelease(token) => ReleaseTells(s, token);
    case DoRevoke(token) => RevokeTells(s, token);
  }

  lemma CloseTells(s: System, waiters: set<Coroutine>)
    ensures OutlineOf(Commit(TryClose(s, waiters))) == TellClose(OutlineOf(s), waiters)
  {
    CommitTells(TryClose(s, waiters));
  }

  lemma FinishTells(s: System, who: Coroutine, ending: Ending)
    ensures OutlineOf(Commit(TryFinish(s, who, ending))) == TellFinish(OutlineOf(s), who, ending)
  {
    CommitTells(TryFinish(s, who, ending));
  }

  lemma SpawnTells(s: System, who: Coroutine, child: Coroutine)
    ensures OutlineOf(Step(s, DoSpawn(who, child))) == Tell(OutlineOf(s), DoSpawn(who, child))
  {
  }

  lemma ShutdownStepTells(s: System, a: Action)
    requires Shows(s.reg, s.log) && s.endings.Keys == Joins(s.log).ended && !OnAttempts(a) && !OnHandoffs(a)
    ensures OutlineOf(Step(s, a)) == Tell(OutlineOf(s), a)
  {
    match a
    case DoClose => CloseTells(s, {});
    case DoCloseAndWait(who) => CloseTells(s, {who});
    case DoSpawn(who, child) => SpawnTells(s, who, child);
    case DoFinish(who, ending) => FinishTells(s, who, ending);
    case DoWaiterWakes(who) => WaiterWakesTells(s, who);
    case DoOwnerCallback(owner) => OwnerCallbackTells(s, owner);
    case DoJoinTurn(who) => JoinTurnTells(s, who);
    case DoJoinResumes(who, culprit) => JoinResumesTells(s, who, culprit);
    case _ =>
  }

  lemma StepTells(s: System, a: Action)
    requires IsReadable(s)
    ensures OutlineOf(Step(s, a)) == Tell(OutlineOf(s), a)
  {
    ReadableShows(s);
    if OnAttempts(a) {
      AttemptStepTells(s, a);
    } else if OnHandoffs(a) {
      HandoffStepTells(s, a);
    } else {
      ShutdownStepTells(s, a);
    }
  }

  lemma {:induction false} RunTells(s: System, actions: seq<Action>)
    requires IsReadable(s)
    ensures OutlineOf(Exec(s, actions)) == TellAll(OutlineOf(s), actions) && IsReadable(Exec(s, actions))
    decreases |actions|
  {
    if actions != [] {
      StepTells(s, actions[0]);
      StepStaysReadable(s, actions[0]);
      RunTells(Step(s, actions[0]), actions[1..]);
    }
  }

  /** In every run the registry lets happen, and refuses, exactly what the telling does. */
  lemma RegistryRefinesTheLog(actions: seq<Action>)
    ensures OutlineOf(Exec(START, actions)) == TellAll(BEGINNING, actions)
    ensures IsReadable(Exec(START, actions))
  {
    RunTells(START, actions);
  }

  // --- who may enter ---

  /** `t` is on top of the handoffs that `who` has bound, by this registry. */
  predicate HasBoundHandoff(s: System, who: Coroutine, t: Token) {
    && who in s.contexts && s.contexts[who].handoff != []
    && s.contexts[who].handoff[|s.contexts[who].handoff| - 1] == Bound(true, t)
  }

  predicate HasBoundDriver(s: System, who: Coroutine, t: Token) {
    && who in s.contexts && s.contexts[who].driver != []
    && s.contexts[who].driver[|s.contexts[who].driver| - 1] == Bound(true, t)
  }

  /** The log goes on with the registration of `token` under `key`. */
  predicate Enters(before: seq<Event>, after: seq<Event>, token: Token, key: Key) {
    |after| > |before| && after[|before|].Registered? && after[|before|].token == token && after[|before|].key == key
  }

  lemma TellingEnters(o: Outline, who: Coroutine, project: Option<string>, task: Option<string>, key: Key,
                      owner: Option<Coroutine>, token: Token)
    requires token !in o.minted && KeyOf(project, task) == Ok(key)
    ensures var log, ctx := TellRegister(o, who, project, task, owner, token).log, Bindings(o, who);
      && (Enters(o.log, log, token, key) <==>
            Closed !in o.log || BoundHandoff(o.log, ctx).Some? || BoundDriver(o.log, ctx).Some?)
      && (!Enters(o.log, log, token, key) ==> log == o.log)
  {
  }

  lemma BoundIsOnTop(s: System, who: Coroutine)
    ensures BoundHandoff(s.log, Bindings(OutlineOf(s), who)).Some? <==>
            exists t :: HasBoundHandoff(s, who, t) && Reserved(t) in s.log && Settled(t) !in s.log && Revoked(t) !in s.log
    ensures BoundDriver(s.log, Bindings(OutlineOf(s), who)).Some? <==>
            exists t :: HasBoundDriver(s, who, t) && t in Past(s.log).live
  {
    var ctx := Bindings(OutlineOf(s), who);
    var handoff, driver := BoundHandoff(s.log, ctx), BoundDriver(s.log, ctx);
    if handoff.Some? { assert HasBoundHandoff(s, who, handoff.value); }
    if driver.Some? { assert HasBoundDriver(s, who, driver.value); }
  }

  /**
  In every run a new attempt on a named task enters if and only if admission is open, or the coroutine has
  bound a handoff that is reserved and neither settled nor revoked, or it has bound a driver that is live.
  */
  lemma AdmissionIsExact(actions: seq<Action>, who: Coroutine, project: Option<string>, task: Option<string>, key: Key,
                         owner: Option<Coroutine>, token: Token)
    requires token !in Exec(START, actions).minted && KeyOf(project, task) == Ok(key)
    ensures var s := Exec(START, actions);
      var log := Step(s, DoRegister(who, project, task, owner, token)).log;
      && (Enters(s.log, log, token, key) <==>
            || Closed !in s.log
            || (exists t :: HasBoundHandoff(s, who, t) && Reserved(t) in s.log && Settled(t) !in s.log && Revoked(t) !in s.log)
            || (exists t :: HasBoundDriver(s, who, t) && t in Past(s.log).live))
      && (!Enters(s.log, log, token, key) ==> log == s.log)
  {
    RegistryRefinesTheLog(actions);
    var s := Exec(START, actions);
    StepTells(s, DoRegister(who, project, task, owner, token));
    TellingEnters(OutlineOf(s), who, project, task, key, owner, token);
    BoundIsOnTop(s, who);
  }

  /** A task is named when some character of its name is visible, and keys hold stripped names. */
  lemma KeysAreNames(project: Option<string>, task: Option<string>)
    ensures KeyOf(project, task).Ok? <==> task.Some? && exists c :: c in task.value && !IsSpace(c)
    ensures KeyOf(project, task).Ok? ==>
      var key := KeyOf(project, task).value;
      && key.task == Trim(task.value)
      && (project.Some? && (exists c :: c in project.value && !IsSpace(c)) ==> key.project == Trim(project.value))
      && (project.None? || (forall c | c in project.value :: IsSpace(c)) ==> key.project == "default")
  {
    if task.Some? { TrimIsBlank(task.value); }
    if project.Some? { TrimIsBlank(project.value); }
    TrimIsTrimmed("default");
  }
}
