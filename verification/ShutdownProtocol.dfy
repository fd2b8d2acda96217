/**
Every interleaving of coroutines that share one registry.  A coroutine runs without
interruption between two awaits, so each operation is one atomic step; the two ContextVars
are a stack per coroutine, and a spawned coroutine starts from its parent's current bindings.
Steps are logged, and the theorems speak about the log of an arbitrary run.
*/
module ShutdownProtocol {
  import opened Wrappers
  import opened AdmissionRegistry

  datatype Event =
    | Registered(token: Token, key: Key, owner: Option<Coroutine>, handoff: Option<Token>, driver: Option<Token>)
    | Unregistered(token: Token, key: Key)
    | OwnerBound(token: Token, coroutine: Coroutine)
    | DriverBound(token: Token, who: Coroutine)
    | HandoffBound(token: Token, who: Coroutine)
    | Reserved(token: Token)
    | Retained(token: Token)
    | Released(token: Token)
    | Settled(token: Token)
    | Revoked(token: Token)
    | Closed
    | DrainReturned(who: Coroutine)
    | Ended(who: Coroutine)
    | FailureRecorded(failure: Failure)
    | FailureRaised(who: Coroutine, failure: Failure)   // by a join, from the list of recorded failures
    | GatherRaised(who: Coroutine, failure: Failure)    // by a join, from the owners it had waited for
    | JoinReturned(who: Coroutine, project: Option<string>)

  // ---------------------------------------------------------------------------
  // What a log says
  // ---------------------------------------------------------------------------

  /** The history a log records, independently of any registry. */
  datatype History = History(
    live: map<Token, Key>,          // attempts registered and not unregistered since
    registered: multiset<Key>,      // registrations per task
    unregistered: multiset<Key>,    // successful unregistrations per task
    closed: bool,                   // admission was closed
    reserved: set<Token>,           // handoffs reserved while admission was open
    ended: set<Token>,              // handoffs settled or revoked
    retained: multiset<Token>,
    released: multiset<Token>,
    drained: bool,                  // a drain wait returned
    licensed: bool)                 // every registration had a licence to enter

  const NO_HISTORY := History(map[], multiset{}, multiset{}, false, {}, {}, multiset{}, multiset{}, false, true)

  /** Why an attempt may enter: admission is open, or a handoff accepted while it was, or a live driver. */
  predicate Licensed(h: History, e: Event)
    requires e.Registered?
  {
    || !h.closed
    || (e.handoff.Some? && e.handoff.value in h.reserved)
    || (e.driver.Some? && e.driver.value in h.live)
  }

  function Absorb(h: History, e: Event): History {
    History(
      if e.Registered? then h.live[e.token := e.key] else if e.Unregistered? then h.live - {e.token} else h.live,
      if e.Registered? then h.registered + multiset{e.key} else h.registered,
      if e.Unregistered? then h.unregistered + multiset{e.key} else h.unregistered,
      h.closed || e.Closed?,
      if e.Reserved? && !h.closed then h.reserved + {e.token} else h.reserved,
      if e.Settled? || e.Revoked? then h.ended + {e.token} else h.ended,
      if e.Retained? then h.retained + multiset{e.token} else h.retained,
      if e.Released? then h.released + multiset{e.token} else h.released,
      h.drained || e.DrainReturned?,
      h.licensed && (e.Registered? ==> Licensed(h, e)))
  }

  // ---------------------------------------------------------------------------
  // The system and its steps
  // ---------------------------------------------------------------------------

  /** Where a coroutine stands inside `cancel_and_wait_for_owner_tasks`. */
  datatype Join =
    | Looping(project: Option<string>)
    | Gathering(project: Option<string>, owners: set<Coroutine>)

  datatype System = System(
    reg: Registry,
    contexts: map<Coroutine, Context>,
    endings: map<Coroutine, Ending>,
    joins: map<Coroutine, Join>,
    waiters: set<Coroutine>,
    minted: set<Token>,
    past: History,
    log: seq<Event>)

  const START := System(FRESH, map[], map[], map[], {}, {}, NO_HISTORY, [])

  datatype Action =
    | DoRegister(who: Coroutine, project: Option<string>, task: Option<string>, owner: Option<Coroutine>, token: Token)
    | DoUnregister(project: Option<string>, task: Option<string>, token: Token)
    | DoBindOwner(token: Token, coroutine: Coroutine)
    | DoBindDriver(who: Coroutine, token: Token)
    | DoUnbindDriver(who: Coroutine)
    | DoReserve(token: Token)
    | DoBindHandoff(who: Coroutine, token: Token)
    | DoUnbindHandoff(who: Coroutine)
    | DoRetain(who: Coroutine)
    | DoReleaseCurrent(who: Coroutine)
    | DoRelease(token: Token)
    | DoRevoke(token: Token)
    | DoClose
    | DoCloseAndWait(who: Coroutine)
    | DoWaiterWakes(who: Coroutine)
    | DoSpawn(who: Coroutine, child: Coroutine)
    | DoFinish(who: Coroutine, ending: Ending)
    | DoOwnerCallback(who: Coroutine)
    | DoJoin(who: Coroutine, project: Option<string>)
    | DoJoinTurn(who: Coroutine)
    | DoJoinResumes(who: Coroutine, culprit: Option<Coroutine>)

  function ContextOf(s: System, c: Coroutine): Context {
    if c in s.contexts then s.contexts[c] else NO_CONTEXT
  }

  function Pop(stack: seq<Binding>): seq<Binding> {
    if stack == [] then [] else stack[..|stack| - 1]
  }

  /** A new coroutine copies the current value of each ContextVar, not the way to reset it. */
  function Inherited(ctx: Context): Context {
    Context([Current(ctx.handoff)], [Current(ctx.driver)])
  }

  /** Appends one event to the log and to its running summary. */
  function Note(s: System, e: Event): System {
    s.(past := Absorb(s.past, e), log := s.log + [e])
  }

  /** What a step does to everything but the log, and the events it logs. */
  datatype Move = Still(next: System) | Once(next: System, first: Event) | Twice(next: System, first: Event, second: Event)

  function Commit(m: Move): System {
    match m
    case Still(next) => next
    case Once(next, first) => Note(next, first)
    case Twice(next, first, second) => Note(Note(next, first), second)
  }

  function TryRegister(s: System, who: Coroutine, project: Option<string>, task: Option<string>,
                       owner: Option<Coroutine>, token: Token): Move
  {
    var ctx := ContextOf(s, who);
    var effect := Register(s.reg, ctx, project, task, owner, token);
    if token in s.minted || effect.result.Err? || KeyOf(project, task).Err? then Still(s)
    else
      var handoff := PendingHandoff(s.reg, ctx);
      var entry := Registered(token, KeyOf(project, task).value, owner, handoff, LiveDriver(s.reg, ctx));
      var next := s.(reg := effect.next, minted := s.minted + {token});
      if handoff.Some? then Twice(next, entry, Settled(handoff.value)) else Once(next, entry)
  }

  function TryUnregister(s: System, project: Option<string>, task: Option<string>, token: Token): Move {
    var effect := Unregister(s.reg, project, task, token);
    if effect.result != Ok(true) || KeyOf(project, task).Err? then Still(s)
    else Once(s.(reg := effect.next), Unregistered(token, KeyOf(project, task).value))
  }

  function TryBindOwner(s: System, token: Token, owner: Coroutine): Move {
    var effect := BindAttemptTask(s.reg, token, owner);
    if effect.result.Err? then Still(s) else Once(s.(reg := effect.next), OwnerBound(token, owner))
  }

  function TryBindDriver(s: System, who: Coroutine, token: Token): Move {
    var bound := BindDriver(s.reg, ContextOf(s, who), token);
    if bound.Err? then Still(s)
    else Once(s.(contexts := s.contexts[who := bound.value]), DriverBound(token, who))
  }

  function TryBindHandoff(s: System, who: Coroutine, token: Token): Move {
    var bound := BindHandoff(s.reg, ContextOf(s, who), token);
    if bound.Err? then Still(s)
    else Once(s.(contexts := s.contexts[who := bound.value]), HandoffBound(token, who))
  }

  function TryReserve(s: System, token: Token): Move {
    var effect := Reserve(s.reg, token);
    if token in s.minted || effect.result.Err? then Still(s)
    else Once(s.(reg := effect.next, minted := s.minted + {token}), Reserved(token))
  }

  function TryRetain(s: System, who: Coroutine): Move {
    var (next, token) := Retain(s.reg, ContextOf(s, who));
    if token.None? then Still(s) else Once(s.(reg := next), Retained(token.value))
  }

  function TryRelease(s: System, token: Token): Move {
    var (next, released) := Release(s.reg, token);
    if !released then Still(s)
    else if token in next.refs then Once(s.(reg := next), Released(token))
    else Twice(s.(reg := next), Released(token), Settled(token))
  }

  function TryReleaseCurrent(s: System, who: Coroutine): Move {
    var token := PendingHandoff(s.reg, ContextOf(s, who));
    if token.None? then Still(s) else TryRelease(s, token.value)
  }

  function TryRevoke(s: System, token: Token): Move {
    var (next, revoked) := Revoke(s.reg, token);
    if !revoked then Still(s) else Once(s.(reg := next), Revoked(token))
  }

  function TryClose(s: System, waiters: set<Coroutine>): Move {
    Once(s.(reg := s.reg.(closed := true), waiters := s.waiters + waiters), Closed)
  }

  /** The waiting loop returns only from its test of the reference counts. */
  function TryWaiterWakes(s: System, who: Coroutine): Move {
    if who in s.waiters && s.reg.refs == map[]
    then Once(s.(waiters := s.waiters - {who}), DrainReturned(who))
    else Still(s)
  }

  function TryOwnerCallback(s: System, owner: Coroutine): Move {
    if owner !in s.endings then Still(s)
    else
      var next := OwnerFinished(s.reg, owner, s.endings[owner]);
      if next.failures == s.reg.failures then Still(s)
      else Once(s.(reg := next), FailureRecorded(Failure(owner, s.endings[owner].what)))
  }

  function TryFinish(s: System, who: Coroutine, ending: Ending): Move {
    if who in s.endings then Still(s) else Once(s.(endings := s.endings[who := ending]), Ended(who))
  }

  function TryJoinTurn(s: System, who: Coroutine): Move {
    if who !in s.joins || !s.joins[who].Looping? then Still(s)
    else
      var (next, round) := JoinRound(s.reg, who, s.joins[who].project, s.endings.Keys);
      match round
      case Reported(failure) => Once(s.(reg := next, joins := s.joins - {who}), FailureRaised(who, failure))
      case Finished => Once(s.(reg := next, joins := s.joins - {who}), JoinReturned(who, s.joins[who].project))
      case Waiting(owners) =>
        Still(s.(reg := next, joins := s.joins[who := Gathering(s.joins[who].project, owners)]))
  }

  /** `gather` returns when all owners ended; `culprit` is an owner that failed, if any did. */
  function TryJoinResumes(s: System, who: Coroutine, culprit: Option<Coroutine>): Move {
    if who !in s.joins || !s.joins[who].Gathering? || !(s.joins[who].owners <= s.endings.Keys) then Still(s)
    else
      var owners := s.joins[who].owners;
      if culprit.Some? then
        if culprit.value in owners && s.endings[culprit.value].Failed? then
          var failure := Failure(culprit.value, s.endings[culprit.value].what);
          Once(s.(reg := JoinGathered(s.reg, Some(failure)), joins := s.joins - {who}), GatherRaised(who, failure))
        else Still(s)
      else if exists o | o in owners :: s.endings[o].Failed? then Still(s)
      else Still(s.(reg := JoinGathered(s.reg, None), joins := s.joins[who := Looping(s.joins[who].project)]))
  }

  function Try(s: System, a: Action): Move {
    match a
    case DoRegister(who, project, task, owner, token) => TryRegister(s, who, project, task, owner, token)
    case DoUnregister(project, task, token) => TryUnregister(s, project, task, token)
    case DoBindOwner(token, owner) => TryBindOwner(s, token, owner)
    case DoBindDriver(who, token) => TryBindDriver(s, who, token)
    case DoUnbindDriver(who) =>
      var ctx := ContextOf(s, who);
      Still(s.(contexts := s.contexts[who := ctx.(driver := Pop(ctx.driver))]))
    case DoReserve(token) => TryReserve(s, token)
    case DoBindHandoff(who, token) => TryBindHandoff(s, who, token)
    case DoUnbindHandoff(who) =>
      var ctx := ContextOf(s, who);
      Still(s.(contexts := s.contexts[who := ctx.(handoff := Pop(ctx.handoff))]))
    case DoRetain(who) => TryRetain(s, who)
    case DoReleaseCurrent(who) => TryReleaseCurrent(s, who)
    case DoRelease(token) => TryRelease(s, token)
    case DoRevoke(token) => TryRevoke(s, token)
    case DoClose => TryClose(s, {})
    case DoCloseAndWait(who) => TryClose(s, {who})
    case DoWaiterWakes(who) => TryWaiterWakes(s, who)
    case DoSpawn(who, child) =>
      Still(if child in s.contexts then s else s.(contexts := s.contexts[child := Inherited(ContextOf(s, who))]))
    case DoFinish(who, ending) => TryFinish(s, who, ending)
    case DoOwnerCallback(who) => TryOwnerCallback(s, who)
    case DoJoin(who, project) => Still(s.(joins := s.joins[who := Looping(project)]))
    case DoJoinTurn(who) => TryJoinTurn(s, who)
    case DoJoinResumes(who, culprit) => TryJoinResumes(s, who, culprit)
  }

  /** One atomic step.  A step the code would refuse, or whose uuid is not new, changes nothing. */
  function Step(s: System, a: Action): System {
    Commit(Try(s, a))
  }

  function Exec(s: System, actions: seq<Action>): System
    decreases |actions|
  {
    if actions == [] then s else Exec(Step(s, actions[0]), actions[1..])
  }

  // ---------------------------------------------------------------------------
  // Reading a whole log
  // ---------------------------------------------------------------------------

  function Past(log: seq<Event>): History {
    if log == [] then NO_HISTORY else Absorb(Past(log[..|log| - 1]), log[|log| - 1])
  }

  function Registrations(log: seq<Event>, key: Key): nat {
    if log == [] then 0
    else
      Registrations(log[..|log| - 1], key)
      + if log[|log| - 1].Registered? && log[|log| - 1].key == key then 1 else 0
  }

  function Unregistrations(log: seq<Event>, key: Key): nat {
    if log == [] then 0
    else
      Unregistrations(log[..|log| - 1], key)
      + if log[|log| - 1].Unregistered? && log[|log| - 1].key == key then 1 else 0
  }

  /** An event that lets work in, or prolongs or attaches something that may. */
  predicate Admitting(e: Event) {
    e.Registered? || e.Reserved? || e.Retained? || e.OwnerBound? || e.DriverBound? || e.HandoffBound?
  }

  /** `c` leads from the registration at c[0], driver by driver, to one that was admitted before the close. */
  ghost predicate AdmissionChain(log: seq<Event>, c: seq<nat>) {
    && c != []
    && (forall k | 0 <= k < |c| :: c[k] < |log| && log[c[k]].Registered?)
    && (forall k | 0 <= k < |c| - 1 ::
          && c[k + 1] < c[k]
          && log[c[k]].driver == Some(log[c[k + 1]].token)
          && log[c[k + 1]].token in Past(log[..c[k]]).live)
    && var last := c[|c| - 1];
       || !Past(log[..last]).closed
       || (log[last].handoff.Some? && log[last].handoff.value in Past(log[..last]).reserved)
  }

  /** Admission is closed, nothing is pending and nothing runs. */
  ghost predicate Quiet(s: System) {
    && s.reg.closed
    && s.reg.refs == map[]
    && forall k | k in s.reg.attempts :: s.reg.attempts[k] == {}
  }

  // ---------------------------------------------------------------------------
  // The invariant of every run
  // ---------------------------------------------------------------------------

  /** The attempt table holds exactly the live attempts, each under its own task. */
  ghost predicate Books(attempts: map<Key, set<Token>>, live: map<Token, Key>) {
    && (forall k, t | k in attempts && t in attempts[k] :: t in live && live[t] == k)
    && (forall t | t in live :: live[t] in attempts && t in attempts[live[t]])
  }

  ghost predicate Accounts(attempts: map<Key, set<Token>>, registered: multiset<Key>, unregistered: multiset<Key>) {
    forall k :: |AttemptsOf(attempts, k)| + unregistered[k] == registered[k]
  }

  ghost predicate Counted(refs: map<Token, nat>, retained: multiset<Token>, released: multiset<Token>) {
    forall t | t in refs :: refs[t] >= 1 && refs[t] + released[t] == 1 + retained[t]
  }

  ghost predicate Pending(refs: set<Token>, reserved: set<Token>, ended: set<Token>, drained: bool) {
    refs <= reserved && refs !! ended && (drained ==> refs == {})
  }

  ghost predicate Known(minted: set<Token>, h: History) {
    && h.live.Keys <= minted
    && h.reserved <= minted
    && h.ended <= minted
    && (forall t | t !in minted :: h.retained[t] == 0 && h.released[t] == 0)
  }

  /** The registry `r` is what the history `h` left behind; `minted` are the uuids drawn so far. */
  ghost predicate Agrees(r: Registry, minted: set<Token>, h: History) {
    && Known(minted, h)
    && Books(r.attempts, h.live)
    && Accounts(r.attempts, h.registered, h.unregistered)
    && r.owners.Keys <= h.live.Keys
    && Counted(r.refs, h.retained, h.released)
    && Pending(r.refs.Keys, h.reserved, h.ended, h.drained)
    && (r.drained <==> r.refs.Keys == {})
    && (h.drained ==> h.closed)
    && (r.closed <==> h.closed)
    && h.licensed
  }

  ghost predicate Inv(s: System) {
    Agrees(s.reg, s.minted, s.past) && (s.waiters != {} ==> s.reg.closed)
  }
}
