/** The session levels of the native permission policy, shared by every task of a scope. */
module PermissionPolicy {
  import opened Text

  datatype Level = ReadOnly | Auto | FullAccess

  /** A level as it was configured or stored: absent, not one of the three, or readable. */
  datatype Setting = Absent | Unreadable | Known(level: Level)

  datatype Task = Task(
    id: string,
    sessionId: string,
    permissionScope: string,
    rootSession: string,
    runtimeRoot: string,
    parentSession: string,
    approval: Setting)

  datatype Policy = Policy(default: Setting, levels: map<string, Level>)

  datatype Verdict = Verdict(level: Level, scope: string)

  /** `normalize_native_approval_level` */
  function Normalize(setting: Setting, default: Level): Level {
    if setting.Known? then setting.level else default
  }

  function DefaultLevel(p: Policy): Level {
    Normalize(p.default, Auto)
  }

  function ScopeOf(t: Task): string {
    Trim(OrElse(t.permissionScope,
         OrElse(t.rootSession, OrElse(t.runtimeRoot, OrElse(t.parentSession, OrElse(t.sessionId, t.id))))))
  }

  function SetLevel(p: Policy, scope: string, setting: Setting): (Policy, Level) {
    var level := Normalize(setting, DefaultLevel(p));
    (if Trim(scope) == "" then p else p.(levels := p.levels[Trim(scope) := level]), level)
  }

  function ContextOf(p: Policy, t: Task): (Policy, Verdict) {
    var scope := ScopeOf(t);
    if scope != "" && scope in p.levels then (p, Verdict(p.levels[scope], scope))
    else if t.approval.Absent? then (p, Verdict(DefaultLevel(p), scope))
    else
      var level := Normalize(t.approval, DefaultLevel(p));
      (if scope == "" then p else p.(levels := p.levels[scope := level]), Verdict(level, scope))
  }

  function Register(p: Policy, t: Task): (Policy, Task, Verdict) {
    var (next, verdict) := ContextOf(p, t);
    if verdict.scope == "" then (next, t.(approval := Known(verdict.level)), verdict)
    else
      (next.(levels := next.levels[verdict.scope := verdict.level]),
       t.(approval := Known(verdict.level), permissionScope := verdict.scope), verdict)
  }

  class NativePermissionPolicyResolver {
    var config: Setting
    var sessionLevels: map<string, Level>

    function State(): Policy
      reads this
    {
      Policy(config, sessionLevels)
    }

    constructor (config: Setting)
      ensures State() == Policy(config, map[])
    {
      this.config := config;
      sessionLevels := map[];
    }

    method SetConfig(config: Setting)
      modifies this`config
      ensures State() == old(State()).(default := config)
    {
      this.config := config;
    }

    method SetSessionLevel(scope: string, setting: Setting) returns (level: Level)
      modifies this`sessionLevels
      ensures (State(), level) == SetLevel(old(State()), scope, setting)
    {
      level := Normalize(setting, DefaultLevel(State()));
      var key := Trim(scope);
      if key != "" {
        sessionLevels := sessionLevels[key := level];
      }
    }

    method ContextForTask(task: Task) returns (verdict: Verdict)
      modifies this`sessionLevels
      ensures (State(), verdict) == ContextOf(old(State()), task)
    {
      var scope := ScopeOf(task);
      if scope != "" && scope in sessionLevels {
        return Verdict(sessionLevels[scope], scope);
      }
      if task.approval.Absent? {
        return Verdict(DefaultLevel(State()), scope);
      }
      var level := Normalize(task.approval, DefaultLevel(State()));
      if scope != "" {
        sessionLevels := sessionLevels[scope := level];
      }
      return Verdict(level, scope);
    }

    method RegisterTask(task: Task) returns (registered: Task, verdict: Verdict)
      modifies this`sessionLevels
      ensures (State(), registered, verdict) == Register(old(State()), task)
    {
      verdict := ContextForTask(task);
      registered := task.(approval := Known(verdict.level));
      if verdict.scope != "" {
        registered := registered.(permissionScope := verdict.scope);
        sessionLevels := sessionLevels[verdict.scope := verdict.level];
      }
    }
  }

  // --- one level per scope ---

  datatype Call =
    | DoSetConfig(setting: Setting)
    | DoSetLevel(scope: string, setting: Setting)
    | DoContext(task: Task)
    | DoRegister(task: Task)

  function After(p: Policy, call: Call): Policy {
    match call
    case DoSetConfig(setting) => p.(default := setting)
    case DoSetLevel(scope, setting) => SetLevel(p, scope, setting).0
    case DoContext(task) => ContextOf(p, task).0
    case DoRegister(task) => Register(p, task).0
  }

  function AfterAll(p: Policy, calls: seq<Call>): Policy
    decreases |calls|
  {
    if calls == [] then p else AfterAll(After(p, calls[0]), calls[1..])
  }

  /** A recorded level stays until it is set again explicitly, whatever else is called. */
  lemma {:induction false} LevelSticks(p: Policy, calls: seq<Call>, scope: string)
    requires scope in p.levels && scope != ""
    requires forall c | c in calls && c.DoSetLevel? :: Trim(c.scope) != scope
    ensures scope in AfterAll(p, calls).levels && AfterAll(p, calls).levels[scope] == p.levels[scope]
    decreases |calls|
  {
    if calls != [] {
      assert calls[0] in calls;
      LevelSticks(After(p, calls[0]), calls[1..], scope);
    }
  }

  /**
  Every task of a scope sees the level its first registered task saw, however many calls come in
  between and whatever its own metadata says, until the level is set explicitly.
  */
  lemma ScopeSharesOneLevel(p: Policy, first: Task, calls: seq<Call>, second: Task)
    requires ScopeOf(first) == ScopeOf(second) != ""
    requires forall c | c in calls && c.DoSetLevel? :: Trim(c.scope) != ScopeOf(first)
    ensures ContextOf(AfterAll(Register(p, first).0, calls), second).1 == Register(p, first).2
  {
    LevelSticks(Register(p, first).0, calls, ScopeOf(first));
  }

  /** An explicit setting reaches every task of its scope at once. */
  lemma SettingReachesScope(p: Policy, scope: string, setting: Setting, calls: seq<Call>, task: Task)
    requires Trim(scope) == ScopeOf(task) != ""
    requires forall c | c in calls && c.DoSetLevel? :: Trim(c.scope) != ScopeOf(task)
    ensures ContextOf(AfterAll(SetLevel(p, scope, setting).0, calls), task).1
      == Verdict(SetLevel(p, scope, setting).1, ScopeOf(task))
  {
    LevelSticks(SetLevel(p, scope, setting).0, calls, ScopeOf(task));
  }

  // --- which level, and whose ---

  /** The level that a setting gives: its own if it is known, else the configured one, else Auto. */
  predicate IsLevelOf(level: Level, setting: Setting, configured: Setting) {
    match setting
    case Known(l) => level == l
    case _ =>
      match configured
      case Known(l) => level == l
      case _ => level == Auto
  }

  /** `scope` is the first filled one of the ids that a task carries, stripped. */
  predicate IsFirstFilled(scope: string, ids: seq<string>) {
    if ids == [] then scope == ""
    else if ids[0] != "" then scope == Trim(ids[0])
    else IsFirstFilled(scope, ids[1..])
  }

  lemma FirstOrRest(id: string, rest: string, ids: seq<string>)
    requires IsFirstFilled(Trim(rest), ids)
    ensures IsFirstFilled(Trim(OrElse(id, rest)), [id] + ids)
  {
    assert ([id] + ids)[1..] == ids;
  }

  /** A task belongs to its permission scope, else to the nearest session or root that it names, else to itself. */
  lemma ScopeIsFirstFilled(t: Task)
    ensures IsFirstFilled(ScopeOf(t),
      [t.permissionScope] + ([t.rootSession] + ([t.runtimeRoot] + ([t.parentSession] + ([t.sessionId] + ([t.id] + []))))))
  {
    TrimIsTrimmed("");
    FirstOrRest(t.id, "", []);
    FirstOrRest(t.sessionId, t.id, [t.id] + []);
    var own := OrElse(t.sessionId, t.id);
    FirstOrRest(t.parentSession, own, [t.sessionId] + ([t.id] + []));
    var parent := OrElse(t.parentSession, own);
    FirstOrRest(t.runtimeRoot, parent, [t.parentSession] + ([t.sessionId] + ([t.id] + [])));
    var runtime := OrElse(t.runtimeRoot, parent);
    FirstOrRest(t.rootSession, runtime, [t.runtimeRoot] + ([t.parentSession] + ([t.sessionId] + ([t.id] + []))));
    FirstOrRest(t.permissionScope, OrElse(t.rootSession, runtime),
                [t.rootSession] + ([t.runtimeRoot] + ([t.parentSession] + ([t.sessionId] + ([t.id] + [])))));
  }

  /**
  Every task of the scope sees the level that the setting names, or the configured level when it names none
  that can be read, until the scope is set again.
  */
  lemma SettingGivesItsLevel(p: Policy, scope: string, setting: Setting, calls: seq<Call>, task: Task)
    requires Trim(scope) == ScopeOf(task) != ""
    requires forall c | c in calls && c.DoSetLevel? :: Trim(c.scope) != ScopeOf(task)
    ensures IsLevelOf(SetLevel(p, scope, setting).1, setting, p.default)
    ensures var verdict := ContextOf(AfterAll(SetLevel(p, scope, setting).0, calls), task).1;
      verdict.scope == ScopeOf(task) && IsLevelOf(verdict.level, setting, p.default)
  {
    SettingReachesScope(p, scope, setting, calls, task);
  }

  /** A setting without a visible scope is answered, and changes nothing. */
  lemma BlankScopeIsNotSet(p: Policy, scope: string, setting: Setting)
    requires forall c | c in scope :: IsSpace(c)
    ensures SetLevel(p, scope, setting).0 == p && IsLevelOf(SetLevel(p, scope, setting).1, setting, p.default)
  {
    TrimIsBlank(scope);
  }

  /**
  The first task of a scope without a level brings its own: the one it stores, the configured one if that
  cannot be read, and then the scope keeps it; a task that stores none sees the configured level, which is
  not kept.
  */
  lemma FirstTaskDecides(p: Policy, t: Task)
    requires ScopeOf(t) !in p.levels || ScopeOf(t) == ""
    ensures var (next, verdict) := ContextOf(p, t);
      && verdict.scope == ScopeOf(t) && IsLevelOf(verdict.level, t.approval, p.default)
      && next == if t.approval.Absent? || ScopeOf(t) == "" then p
                 else p.(levels := p.levels[ScopeOf(t) := verdict.level])
  {
  }

  /** Registering the registered task again changes nothing, whatever was called in between but a setting of its scope. */
  lemma RegistrationIsStable(p: Policy, t: Task, calls: seq<Call>)
    requires ScopeOf(t) != ""
    requires forall c | c in calls && c.DoSetLevel? :: Trim(c.scope) != ScopeOf(t)
    ensures var (first, registered, verdict) := Register(p, t);
      var later := AfterAll(first, calls);
      && registered == t.(approval := Known(verdict.level), permissionScope := ScopeOf(t))
      && Register(later, registered) == (later, registered, verdict)
  {
    var (first, registered, verdict) := Register(p, t);
    LevelSticks(first, calls, ScopeOf(t));
    var candidates := OrElse(t.permissionScope,
      OrElse(t.rootSession, OrElse(t.runtimeRoot, OrElse(t.parentSession, OrElse(t.sessionId, t.id)))));
    TrimIsTrimmed(candidates);
    TrimIsTrimmed(Trim(candidates));
    var later := AfterAll(first, calls);
    assert later.levels[ScopeOf(t) := verdict.level] == later.levels;
  }
}
