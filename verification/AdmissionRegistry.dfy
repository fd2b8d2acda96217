/**
The state of one `ActiveTaskRunRegistry` as a value, and what each of its synchronous
operations does to that value.  `ActiveTaskRuns` proves the class against these functions;
`ShutdownProtocol` runs them in every interleaving.
*/
module AdmissionRegistry {
  import opened Wrappers
  import opened Text

  /** A uuid handed out by the registry, for an attempt or for a handoff reservation. */
  datatype Token = Uuid(hex: string)

  /** The identity of an asyncio task (a coroutine). */
  type Coroutine = nat

  datatype Key = Key(project: string, task: string)

  /** What a ContextVar holds: nothing, or a token together with "was it set by this registry?". */
  datatype Binding = Unbound | Bound(mine: bool, token: Token)

  /** The two ContextVars of one coroutine, each as the stack that nested `with` blocks build. */
  datatype Context = Context(handoff: seq<Binding>, driver: seq<Binding>)

  const NO_CONTEXT := Context([], [])

  datatype Error =
    | AdmissionClosed
    | TaskIdRequired
    | AttemptNotActive
    | DriverNotActive
    | HandoffNotPending

  /** How an asyncio task ended. */
  datatype Ending = Returned | Cancelled | Failed(what: string)

  /** The exception that an owner task ended with. */
  datatype Failure = Failure(owner: Coroutine, what: string)

  datatype Registry = Registry(
    attempts: map<Key, set<Token>>,
    owners: map<Token, Coroutine>,
    failures: seq<Failure>,
    recorded: set<Coroutine>,
    refs: map<Token, nat>,
    drained: bool,
    closed: bool)

  datatype Effect<T> = Effect(next: Registry, result: Result<T, Error>)

  const FRESH := Registry(map[], map[], [], {}, map[], true, false)

  function ProjectOf(project: Option<string>): string {
    var raw := if project.Some? then OrElse(project.value, "default") else "default";
    OrElse(Trim(raw), "default")
  }

  function KeyOf(project: Option<string>, task: Option<string>): Result<Key, Error> {
    var id := if task.Some? then Trim(task.value) else "";
    if id == "" then Err(TaskIdRequired) else Ok(Key(ProjectOf(project), id))
  }

  function Current(stack: seq<Binding>): Binding {
    if stack == [] then Unbound else stack[|stack| - 1]
  }

  predicate Active(r: Registry, token: Token) {
    exists k | k in r.attempts :: token in r.attempts[k]
  }

  /** `_current_pending_handoff_token` */
  function PendingHandoff(r: Registry, ctx: Context): Option<Token> {
    match Current(ctx.handoff)
    case Unbound => None
    case Bound(mine, token) => if mine && token in r.refs then Some(token) else None
  }

  /** `_current_driver_attempt_token` */
  function LiveDriver(r: Registry, ctx: Context): Option<Token> {
    match Current(ctx.driver)
    case Unbound => None
    case Bound(mine, token) => if mine && Active(r, token) then Some(token) else None
  }

  function AttemptsOf(attempts: map<Key, set<Token>>, key: Key): set<Token> {
    if key in attempts then attempts[key] else {}
  }

  /** The attempt table without one attempt, and without the entry of a task that has none left. */
  function Without(attempts: map<Key, set<Token>>, key: Key, token: Token): map<Key, set<Token>> {
    var left := AttemptsOf(attempts, key) - {token};
    if left == {} then attempts - {key} else attempts[key := left]
  }

  function Settle(r: Registry, token: Token): Registry {
    var refs := r.refs - {token};
    r.(refs := refs, drained := r.drained || refs == map[])
  }

  /** The attempt enters the table, with its owner if that is known. */
  function Admit(r: Registry, key: Key, owner: Option<Coroutine>, minted: Token): Registry {
    r.(attempts := r.attempts[key := AttemptsOf(r.attempts, key) + {minted}],
       owners := if owner.Some? then r.owners[minted := owner.value] else r.owners)
  }

  function Register(r: Registry, ctx: Context, project: Option<string>, task: Option<string>,
                    owner: Option<Coroutine>, minted: Token): Effect<Token>
  {
    var handoff := PendingHandoff(r, ctx);
    if r.closed && handoff.None? && LiveDriver(r, ctx).None? then
      Effect(r, Err(AdmissionClosed))
    else
      match KeyOf(project, task)
      case Err(e) => Effect(r, Err(e))
      case Ok(key) =>
        var admitted := Admit(r, key, owner, minted);
        Effect(if handoff.Some? then Settle(admitted, handoff.value) else admitted, Ok(minted))
  }

  function BindAttemptTask(r: Registry, token: Token, owner: Coroutine): Effect<()> {
    if Active(r, token) then Effect(r.(owners := r.owners[token := owner]), Ok(()))
    else Effect(r, Err(AttemptNotActive))
  }

  /** `_attempt_owner_finished`, the done callback of an owner task. */
  function OwnerFinished(r: Registry, owner: Coroutine, ending: Ending): Registry {
    if !r.closed || ending.Cancelled? || owner in r.recorded || ending.Returned? then r
    else r.(recorded := r.recorded + {owner}, failures := r.failures + [Failure(owner, ending.what)])
  }

  /** Live coroutine owners of registered attempts, of one project or of all. */
  function ActiveOwners(r: Registry, project: Option<string>, done: set<Coroutine>): set<Coroutine> {
    set t, k | t in r.owners && k in r.attempts && t in r.attempts[k]
               && (project.None? || k.project == ProjectOf(project))
               && r.owners[t] !in done :: r.owners[t]
  }

  function BindDriver(r: Registry, ctx: Context, token: Token): Result<Context, Error> {
    if Active(r, token) then Ok(ctx.(driver := ctx.driver + [Bound(true, token)]))
    else Err(DriverNotActive)
  }

  function Reserve(r: Registry, minted: Token): Effect<Token> {
    if r.closed then Effect(r, Err(AdmissionClosed))
    else Effect(r.(refs := r.refs[minted := 1], drained := false), Ok(minted))
  }

  function BindHandoff(r: Registry, ctx: Context, token: Token): Result<Context, Error> {
    if token in r.refs then Ok(ctx.(handoff := ctx.handoff + [Bound(true, token)]))
    else Err(HandoffNotPending)
  }

  function Retain(r: Registry, ctx: Context): (Registry, Option<Token>) {
    var token := PendingHandoff(r, ctx);
    if token.None? then (r, None)
    else (r.(refs := r.refs[token.value := r.refs[token.value] + 1]), token)
  }

  function Release(r: Registry, token: Token): (Registry, bool) {
    if token !in r.refs then (r, false)
    else if r.refs[token] > 1 then (r.(refs := r.refs[token := r.refs[token] - 1]), true)
    else (Settle(r, token), true)
  }

  function Revoke(r: Registry, token: Token): (Registry, bool) {
    if token !in r.refs then (r, false) else (Settle(r, token), true)
  }

  function Unregister(r: Registry, project: Option<string>, task: Option<string>, token: Token): Effect<bool> {
    match KeyOf(project, task)
    case Err(e) => Effect(r, Err(e))
    case Ok(key) =>
      if token !in AttemptsOf(r.attempts, key) then Effect(r, Ok(false))
      else Effect(r.(attempts := Without(r.attempts, key, token), owners := r.owners - {token}), Ok(true))
  }

  /** One pass of the shutdown join up to its `gather`. */
  datatype Round = Reported(failure: Failure) | Finished | Waiting(owners: set<Coroutine>)

  function JoinRound(r: Registry, current: Coroutine, project: Option<string>, done: set<Coroutine>)
    : (Registry, Round)
  {
    if r.failures != [] then
      (r.(failures := r.failures[1..], recorded := {}), Reported(r.failures[0]))
    else
      var owners := ActiveOwners(r, project, done) - {current};
      (r, if owners == {} then Finished else Waiting(owners))
  }

  /** The part of the join after `gather` returned: `failure` is its first non-cancellation failure. */
  function JoinGathered(r: Registry, failure: Option<Failure>): Registry {
    if failure.Some? then r.(failures := [], recorded := {}) else r
  }
}
