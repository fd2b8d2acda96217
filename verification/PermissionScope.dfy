/** One root session and its persisted native descendants: the tasks that a permission scope covers. */
module PermissionScope {
  import opened Text

  /** The metadata entries that link a task to a session; an absent entry reads as "". */
  datatype Links = Links(
    nativePermissionScopeId: string,
    rootSessionId: string,
    companyRuntimeRootSessionId: string,
    parentSessionId: string)

  /** A task row: `identity` is the identity of the object in memory. */
  datatype Task = Task(id: string, sessionId: string, parentSessionId: string, links: Links, identity: nat)

  /** The id, or the object itself for a task that has none. */
  datatype SelectionKey = ById(id: string) | ByObject(identity: nat)

  function KeyOf(t: Task): SelectionKey {
    var id := Trim(t.id);
    if id == "" then ByObject(t.identity) else ById(id)
  }

  function SessionOf(t: Task): string {
    Trim(t.sessionId)
  }

  function DeclaredRoot(t: Task): string {
    Trim(OrElse(t.links.rootSessionId, OrElse(t.links.companyRuntimeRootSessionId, t.links.parentSessionId)))
  }

  /** Is the task linked to the scope, given the sessions known to belong to it? */
  predicate Linked(t: Task, scope: string, sessions: set<string>) {
    || (scope != "" && Trim(t.links.nativePermissionScopeId) == scope)
    || (SessionOf(t) != "" && SessionOf(t) in sessions)
    || (Trim(t.parentSessionId) != "" && Trim(t.parentSessionId) in sessions)
    || (DeclaredRoot(t) != "" && DeclaredRoot(t) in sessions)
  }

  function Sessions(tasks: set<Task>): set<string> {
    set t | t in tasks && SessionOf(t) != "" :: SessionOf(t)
  }

  function Elements(tasks: seq<Task>): set<Task> {
    set t | t in tasks
  }

  function ScopeOf(rootSessionId: string, scopeId: string): string {
    Trim(OrElse(scopeId, Trim(rootSessionId)))
  }

  function Seeds(rootSessionId: string, scopeId: string): set<string> {
    {Trim(rootSessionId), ScopeOf(rootSessionId, scopeId)} - {""}
  }

  /** `covered` contains every task linked to the scope through the seeds or through its own sessions. */
  predicate IsClosed(tasks: set<Task>, scope: string, seeds: set<string>, covered: set<Task>) {
    forall t | t in tasks && Linked(t, scope, seeds + Sessions(covered)) :: t in covered
  }

  ghost predicate IsLeast(tasks: set<Task>, scope: string, seeds: set<string>, covered: set<Task>) {
    forall other | IsClosed(tasks, scope, seeds, other) :: covered <= other
  }

  predicate UniqueKeys(tasks: seq<Task>) {
    forall i, j | 0 <= i < j < |tasks| :: KeyOf(tasks[i]) != KeyOf(tasks[j])
  }

  lemma LinkedGrows(t: Task, scope: string, few: set<string>, many: set<string>)
    requires Linked(t, scope, few) && few <= many
    ensures Linked(t, scope, many)
  {
  }

  /** A task linked through the sessions of covered tasks belongs to every closed set. */
  lemma LinkedIsForced(tasks: set<Task>, scope: string, seeds: set<string>, covered: set<Task>, t: Task)
    requires IsLeast(tasks, scope, seeds, covered)
    requires t in tasks && Linked(t, scope, seeds + Sessions(covered))
    ensures IsLeast(tasks, scope, seeds, covered + {t})
  {
    forall other | IsClosed(tasks, scope, seeds, other) ensures covered + {t} <= other {
      assert Sessions(covered) <= Sessions(other);
      LinkedGrows(t, scope, seeds + Sessions(covered), seeds + Sessions(other));
    }
  }

  lemma OneMoreSession(covered: set<Task>, t: Task)
    ensures Sessions(covered + {t}) == Sessions(covered) + if SessionOf(t) == "" then {} else {SessionOf(t)}
  {
    var more := covered + {t};
    forall s | s in Sessions(covered) ensures s in Sessions(more) {
      var u :| u in covered && SessionOf(u) != "" && SessionOf(u) == s;
      assert u in more;
    }
    if SessionOf(t) != "" {
      assert t in more;
    }
  }

  function Keys(tasks: seq<Task>): set<SelectionKey> {
    set t | t in tasks :: KeyOf(t)
  }

  lemma OneMoreElement(selected: seq<Task>, t: Task)
    ensures Elements(selected + [t]) == Elements(selected) + {t}
    ensures Keys(selected + [t]) == Keys(selected) + {KeyOf(t)}
  {
    assert forall u :: u in selected + [t] <==> u in selected || u == t;
  }

  lemma OneMoreTask(selected: seq<Task>, t: Task)
    ensures Elements(selected + [t]) == Elements(selected) + {t}
    ensures Keys(selected + [t]) == Keys(selected) + {KeyOf(t)}
    ensures UniqueKeys(selected) && KeyOf(t) !in Keys(selected) ==> UniqueKeys(selected + [t])
  {
    OneMoreElement(selected, t);
    assert forall i | 0 <= i < |selected| :: selected[i] in selected && KeyOf(selected[i]) in Keys(selected);
  }

  /** What the loops keep about the selection made so far. */
  ghost predicate Selection(all: set<Task>, scope: string, seeds: set<string>,
                            selected: seq<Task>, sessionIds: set<string>, selectedIds: set<SelectionKey>)
  {
    && sessionIds == seeds + Sessions(Elements(selected))
    && selectedIds == Keys(selected)
    && UniqueKeys(selected)
    && Elements(selected) <= all
    && IsLeast(all, scope, seeds, Elements(selected))
  }

  lemma SelectOne(all: set<Task>, scope: string, seeds: set<string>,
                  selected: seq<Task>, sessionIds: set<string>, selectedIds: set<SelectionKey>, task: Task)
    requires Selection(all, scope, seeds, selected, sessionIds, selectedIds)
    requires task in all && KeyOf(task) !in selectedIds && Linked(task, scope, sessionIds)
    ensures var session := SessionOf(task);
      Selection(all, scope, seeds, selected + [task],
                sessionIds + (if session == "" then {} else {session}), selectedIds + {KeyOf(task)})
  {
    LinkedIsForced(all, scope, seeds, Elements(selected), task);
    OneMoreSession(Elements(selected), task);
    OneMoreTask(selected, task);
  }

  /** One pass over the tasks: the body of the outer loop. */
  method Sweep(tasks: seq<Task>, scope: string, ghost seeds: set<string>,
               selected: seq<Task>, sessionIds: set<string>, selectedIds: set<SelectionKey>)
    returns (more: seq<Task>, sessions: set<string>, ids: set<SelectionKey>, changed: bool)
    requires Selection(Elements(tasks), scope, seeds, selected, sessionIds, selectedIds)
    ensures Selection(Elements(tasks), scope, seeds, more, sessions, ids)
    ensures if changed then sessionIds < sessions else sessionIds == sessions
    ensures !changed ==> Swept(tasks, |tasks|, scope, sessions, ids)
  {
    more, sessions, ids, changed := selected, sessionIds, selectedIds, false;
    var i := 0;
    while i < |tasks|
      invariant i <= |tasks|
      invariant Selection(Elements(tasks), scope, seeds, more, sessions, ids)
      invariant if changed then sessionIds < sessions else sessionIds == sessions
      invariant !changed ==> Swept(tasks, i, scope, sessions, ids)
    {
      var task := tasks[i];
      ghost var idsBefore := ids;
      if KeyOf(task) !in ids && Linked(task, scope, sessions) {
        SelectOne(Elements(tasks), scope, seeds, more, sessions, ids, task);
        more := more + [task];
        ids := ids + {KeyOf(task)};
        var session := SessionOf(task);
        if session != "" && session !in sessions {
          sessions := sessions + {session};
          changed := true;
        } else if session == "" {
          assert sessions + {} == sessions;
        } else {
          assert sessions + {session} == sessions;
        }
      }
      if !changed {
        SweptNext(tasks, i, scope, sessions, idsBefore, ids);
      }
      i := i + 1;
    }
  }

  method TasksInNativePermissionScope(tasks: seq<Task>, rootSessionId: string, scopeId: string)
    returns (selected: seq<Task>)
    ensures UniqueKeys(selected)
    ensures Elements(selected) <= Elements(tasks)
    ensures IsLeast(Elements(tasks), ScopeOf(rootSessionId, scopeId), Seeds(rootSessionId, scopeId), Elements(selected))
    ensures Swept(tasks, |tasks|, ScopeOf(rootSessionId, scopeId),
                  Seeds(rootSessionId, scopeId) + Sessions(Elements(selected)), Keys(selected))
    ensures UniqueKeys(tasks) ==>
      IsClosed(Elements(tasks), ScopeOf(rootSessionId, scopeId), Seeds(rootSessionId, scopeId), Elements(selected))
  {
    var scope := ScopeOf(rootSessionId, scopeId);
    var sessionIds := Seeds(rootSessionId, scopeId);
    ghost var seeds := sessionIds;
    var selectedIds: set<SelectionKey> := {};
    selected := [];
    var changed := true;
    assert Elements(selected) == {};
    while changed
      invariant Selection(Elements(tasks), scope, seeds, selected, sessionIds, selectedIds)
      invariant !changed ==> Swept(tasks, |tasks|, scope, sessionIds, selectedIds)
      decreases |Sessions(Elements(tasks)) + seeds - sessionIds|, changed
    {
      ghost var before := sessionIds;
      selected, sessionIds, selectedIds, changed := Sweep(tasks, scope, seeds, selected, sessionIds, selectedIds);
      if changed {
        SessionsGrow(Elements(selected), Elements(tasks));
        FewerLeft(Sessions(Elements(tasks)) + seeds, before, sessionIds);
      }
    }
    if UniqueKeys(tasks) {
      SweptIsClosed(tasks, scope, seeds, selected, selectedIds);
    }
  }

  lemma SessionsGrow(few: set<Task>, many: set<Task>)
    requires few <= many
    ensures Sessions(few) <= Sessions(many)
  {
  }

  /** The first `n` tasks were found selected or unlinked. */
  predicate Swept(tasks: seq<Task>, n: nat, scope: string, sessions: set<string>, keys: set<SelectionKey>)
    requires n <= |tasks|
  {
    forall j | 0 <= j < n && Linked(tasks[j], scope, sessions) :: KeyOf(tasks[j]) in keys
  }

  lemma SweptNext(tasks: seq<Task>, n: nat, scope: string, sessions: set<string>,
                  keys: set<SelectionKey>, more: set<SelectionKey>)
    requires n < |tasks| && Swept(tasks, n, scope, sessions, keys) && keys <= more
    requires Linked(tasks[n], scope, sessions) ==> KeyOf(tasks[n]) in more
    ensures Swept(tasks, n + 1, scope, sessions, more)
  {
  }

  lemma FewerLeft(all: set<string>, few: set<string>, many: set<string>)
    requires few < many <= all
    ensures |all - many| < |all - few|
  {
    var extra :| extra in many && extra !in few;
    assert all - many <= all - few - {extra};
    SubsetIsSmaller(all - many, all - few - {extra});
  }

  lemma {:induction false} SubsetIsSmaller(few: set<string>, many: set<string>)
    requires few <= many
    ensures |few| <= |many|
  {
    if few != {} {
      var x :| x in few;
      SubsetIsSmaller(few - {x}, many - {x});
    }
  }

  lemma SweptIsClosed(tasks: seq<Task>, scope: string, seeds: set<string>,
                      selected: seq<Task>, selectedIds: set<SelectionKey>)
    requires UniqueKeys(tasks)
    requires Selection(Elements(tasks), scope, seeds, selected, seeds + Sessions(Elements(selected)), selectedIds)
    requires Swept(tasks, |tasks|, scope, seeds + Sessions(Elements(selected)), selectedIds)
    ensures IsClosed(Elements(tasks), scope, seeds, Elements(selected))
  {
    forall t | t in Elements(tasks) && Linked(t, scope, seeds + Sessions(Elements(selected)))
      ensures t in Elements(selected)
    {
      var j :| 0 <= j < |tasks| && tasks[j] == t;
      var u :| u in selected && KeyOf(u) == KeyOf(t);
      assert u in Elements(selected);
      var k :| 0 <= k < |tasks| && tasks[k] == u;
    }
  }

  /** The covered set is determined by the set of tasks alone, whatever their order. */
  lemma ScopeIgnoresOrder(first: seq<Task>, second: seq<Task>, scope: string, seeds: set<string>,
                          one: set<Task>, other: set<Task>)
    requires Elements(first) == Elements(second)
    requires IsClosed(Elements(first), scope, seeds, one) && IsLeast(Elements(first), scope, seeds, one)
    requires IsClosed(Elements(second), scope, seeds, other) && IsLeast(Elements(second), scope, seeds, other)
    ensures one == other
  {
    assert one <= other && other <= one;
  }

  // --- the covered tasks are those that a chain of links reaches ---

  /** The sessions that a task names: its own, its parent's, and the first root that it declares. */
  function NamedSessions(t: Task): set<string> {
    {Trim(t.sessionId), Trim(t.parentSessionId),
     Trim(if t.links.rootSessionId != "" then t.links.rootSessionId
          else if t.links.companyRuntimeRootSessionId != "" then t.links.companyRuntimeRootSessionId
          else t.links.parentSessionId)} - {""}
  }

  /** The task says that it belongs to the scope, or names a session of it. */
  predicate Touches(t: Task, scope: string, sessions: set<string>) {
    (scope != "" && Trim(t.links.nativePermissionScopeId) == scope) || NamedSessions(t) * sessions != {}
  }

  lemma LinkedIsTouching(t: Task, scope: string, sessions: set<string>)
    ensures Linked(t, scope, sessions) <==> Touches(t, scope, sessions)
  {
    var named := NamedSessions(t);
    if Linked(t, scope, sessions) && !(scope != "" && Trim(t.links.nativePermissionScopeId) == scope) {
      if SessionOf(t) != "" && SessionOf(t) in sessions { assert SessionOf(t) in named * sessions; }
      if Trim(t.parentSessionId) != "" && Trim(t.parentSessionId) in sessions {
        assert Trim(t.parentSessionId) in named * sessions;
      }
      if DeclaredRoot(t) != "" && DeclaredRoot(t) in sessions { assert DeclaredRoot(t) in named * sessions; }
    }
    if named * sessions != {} {
      var x :| x in named * sessions;
    }
  }

  /** Each task of the chain touches the seeds, or the session of one before it. */
  ghost predicate IsChain(tasks: set<Task>, scope: string, seeds: set<string>, c: seq<Task>) {
    && c != []
    && (forall i | 0 <= i < |c| :: c[i] in tasks)
    && (forall i | 0 <= i < |c| ::
          Touches(c[i], scope, seeds)
          || exists j :: 0 <= j < i && Trim(c[j].sessionId) != "" && Trim(c[j].sessionId) in NamedSessions(c[i]))
  }

  ghost predicate IsReached(tasks: set<Task>, scope: string, seeds: set<string>, t: Task) {
    exists c :: IsChain(tasks, scope, seeds, c) && c[|c| - 1] == t
  }

  lemma {:induction false} ChainIsCovered(tasks: set<Task>, scope: string, seeds: set<string>, covered: set<Task>,
                                          c: seq<Task>, n: nat)
    requires IsClosed(tasks, scope, seeds, covered) && IsChain(tasks, scope, seeds, c) && n < |c|
    ensures c[n] in covered
    decreases n
  {
    LinkedIsTouching(c[n], scope, seeds + Sessions(covered));
    if Touches(c[n], scope, seeds) {
      if NamedSessions(c[n]) * seeds != {} {
        var x :| x in NamedSessions(c[n]) * seeds;
        assert x in NamedSessions(c[n]) * (seeds + Sessions(covered));
      }
    } else {
      var j :| 0 <= j < n && Trim(c[j].sessionId) != "" && Trim(c[j].sessionId) in NamedSessions(c[n]);
      ChainIsCovered(tasks, scope, seeds, covered, c, j);
      assert SessionOf(c[j]) in NamedSessions(c[n]) * (seeds + Sessions(covered));
    }
  }

  lemma ChainGoesOn(tasks: set<Task>, scope: string, seeds: set<string>, c: seq<Task>, t: Task)
    requires t in tasks && (c == [] || IsChain(tasks, scope, seeds, c))
    requires Touches(t, scope, seeds)
      || exists j :: 0 <= j < |c| && Trim(c[j].sessionId) != "" && Trim(c[j].sessionId) in NamedSessions(t)
    ensures IsChain(tasks, scope, seeds, c + [t])
  {
    var longer := c + [t];
    forall i | 0 <= i < |longer|
      ensures Touches(longer[i], scope, seeds)
        || exists j :: 0 <= j < i && Trim(longer[j].sessionId) != "" && Trim(longer[j].sessionId) in NamedSessions(longer[i])
    {
      if i < |c| && !Touches(c[i], scope, seeds) {
        var j :| 0 <= j < i && Trim(c[j].sessionId) != "" && Trim(c[j].sessionId) in NamedSessions(c[i]);
        assert longer[j] == c[j];
      } else if i == |c| && !Touches(t, scope, seeds) {
        var j :| 0 <= j < |c| && Trim(c[j].sessionId) != "" && Trim(c[j].sessionId) in NamedSessions(t);
        assert longer[j] == c[j];
      }
    }
  }

  /** A task that is linked to reached tasks is reached. */
  lemma LinkedIsReached(tasks: set<Task>, scope: string, seeds: set<string>, reached: set<Task>, t: Task)
    requires forall u | u in reached :: IsReached(tasks, scope, seeds, u)
    requires t in tasks && Linked(t, scope, seeds + Sessions(reached))
    ensures IsReached(tasks, scope, seeds, t)
  {
    LinkedIsTouching(t, scope, seeds + Sessions(reached));
    if Touches(t, scope, seeds) {
      ChainGoesOn(tasks, scope, seeds, [], t);
      assert IsChain(tasks, scope, seeds, [] + [t]) && ([] + [t])[0] == t;
    } else {
      var x :| x in NamedSessions(t) * (seeds + Sessions(reached));
      assert x in seeds ==> x in NamedSessions(t) * seeds;
      var u :| u in reached && SessionOf(u) != "" && SessionOf(u) == x;
      var c :| IsChain(tasks, scope, seeds, c) && c[|c| - 1] == u;
      ChainGoesOn(tasks, scope, seeds, c, t);
      assert (c + [t])[|c + [t]| - 1] == t;
    }
  }

  lemma CoveredHasChain(tasks: set<Task>, scope: string, seeds: set<string>, covered: set<Task>, t: Task)
    requires IsLeast(tasks, scope, seeds, covered) && t in covered
    ensures IsReached(tasks, scope, seeds, t)
  {
    ghost var reached := set u | u in tasks && IsReached(tasks, scope, seeds, u);
    forall u | u in tasks && Linked(u, scope, seeds + Sessions(reached)) ensures u in reached {
      LinkedIsReached(tasks, scope, seeds, reached, u);
    }
    assert covered <= reached;
  }

  lemma ChainEndIsCovered(tasks: set<Task>, scope: string, seeds: set<string>, covered: set<Task>, t: Task)
    requires IsClosed(tasks, scope, seeds, covered) && IsReached(tasks, scope, seeds, t)
    ensures t in covered
  {
    var c :| IsChain(tasks, scope, seeds, c) && c[|c| - 1] == t;
    ChainIsCovered(tasks, scope, seeds, covered, c, |c| - 1);
  }

  /** Exactly the tasks that a chain of links reaches from the scope or its root session are covered. */
  lemma CoveredIsReached(tasks: set<Task>, scope: string, seeds: set<string>, covered: set<Task>, t: Task)
    requires covered <= tasks && IsClosed(tasks, scope, seeds, covered) && IsLeast(tasks, scope, seeds, covered)
    ensures t in covered <==> IsReached(tasks, scope, seeds, t)
  {
    if t in covered {
      CoveredHasChain(tasks, scope, seeds, covered, t);
    }
    if IsReached(tasks, scope, seeds, t) {
      ChainEndIsCovered(tasks, scope, seeds, covered, t);
    }
  }

  /** The seeds are the root session and the scope, which is the root session's unless one is given. */
  lemma SeedsAreNamed(rootSessionId: string, scopeId: string)
    ensures ScopeOf(rootSessionId, scopeId) == Trim(if scopeId != "" then scopeId else rootSessionId)
    ensures forall x :: x in Seeds(rootSessionId, scopeId) <==>
      x != "" && (x == Trim(rootSessionId) || (scopeId != "" && x == Trim(scopeId)))
  {
    TrimIsTrimmed(rootSessionId);
    TrimIsTrimmed(Trim(rootSessionId));
  }

  /** Tasks with a visible id are told apart by it, and those without by their identity in memory. */
  lemma KeysTellApart(a: Task, b: Task)
    ensures KeyOf(a) == KeyOf(b) <==>
            Trim(a.id) == Trim(b.id) && ((forall c | c in a.id :: IsSpace(c)) ==> a.identity == b.identity)
  {
    TrimIsBlank(a.id);
    TrimIsBlank(b.id);
  }
}
