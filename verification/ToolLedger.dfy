/** The closure check over the durable tool calls and tool results of every native attempt. */
module ToolLedger {
  import opened Wrappers
  import opened Text

  datatype Call = Call(toolCallId: string, toolName: string)

  datatype ToolResult = ToolResult(toolCallId: string, toolName: string, recordId: string)

  /** One native attempt with its stored rows. */
  datatype Detail = Detail(
    runtimeSessionId: string, taskId: string, roleId: string, calls: seq<Call>, results: seq<ToolResult>)

  datatype Evidence = Evidence(
    runtimeSessionId: string, taskId: string, roleId: string, toolCallId: string, toolName: string, recordId: string)

  /** What a call and its result share. */
  datatype Key = Key(toolCallId: string, toolName: string)

  datatype Error =
    | BadSession(attempt: nat)
    | BadCall(attempt: nat, call: nat)
    | WrongResultCount(attempt: nat, call: nat, count: nat)
    | BadResult(attempt: nat, call: nat)
    | OrphanResults(attempt: nat)

  /** A stored result, as the check sees it. */
  datatype Entry = Entry(key: Key, record: string)

  /** One attempt with every identity stripped. */
  datatype Attempt = Attempt(session: string, taskId: string, roleId: string, keys: seq<Key>, entries: seq<Entry>)

  function Stripped(d: Detail): Attempt {
    Attempt(
      Trim(d.runtimeSessionId), d.taskId, d.roleId,
      seq(|d.calls|, i requires 0 <= i < |d.calls| => Key(Trim(d.calls[i].toolCallId), Trim(d.calls[i].toolName))),
      seq(|d.results|, i requires 0 <= i < |d.results| =>
        Entry(Key(Trim(d.results[i].toolCallId), Trim(d.results[i].toolName)), Trim(d.results[i].recordId))))
  }

  function AllStripped(details: seq<Detail>): seq<Attempt> {
    seq(|details|, n requires 0 <= n < |details| => Stripped(details[n]))
  }

  function Matching(entries: seq<Entry>, key: Key): seq<Entry> {
    if entries == [] then []
    else (if entries[0].key == key then [entries[0]] else []) + Matching(entries[1..], key)
  }

  /** The record id of the first result of a call, or "". */
  function RecordOf(entries: seq<Entry>, key: Key): string {
    var found := Matching(entries, key);
    if found == [] then "" else found[0].record
  }

  predicate Named(key: Key) {
    key.toolCallId != "" && key.toolName != ""
  }

  predicate Distinct<T(==)>(s: seq<T>) {
    forall i, j | 0 <= i < j < |s| :: s[i] != s[j]
  }

  function Records(keys: seq<Key>, entries: seq<Entry>): seq<string> {
    seq(|keys|, i requires 0 <= i < |keys| => RecordOf(entries, keys[i]))
  }

  /** Every call has its own name and exactly one result, and the results have their own record ids. */
  predicate CallsClose(keys: seq<Key>, entries: seq<Entry>) {
    && Distinct(keys)
    && (forall k | k in keys :: Named(k) && |Matching(entries, k)| == 1 && RecordOf(entries, k) != "")
    && Distinct(Records(keys, entries))
  }

  predicate NoOrphan(keys: seq<Key>, entries: seq<Entry>) {
    forall e | e in entries :: e.key in keys
  }

  predicate AttemptCloses(a: Attempt) {
    a.session != "" && CallsClose(a.keys, a.entries) && NoOrphan(a.keys, a.entries)
  }

  function SessionsOf(attempts: seq<Attempt>): seq<string> {
    seq(|attempts|, n requires 0 <= n < |attempts| => attempts[n].session)
  }

  predicate LedgerCloses(attempts: seq<Attempt>) {
    Distinct(SessionsOf(attempts)) && forall a | a in attempts :: AttemptCloses(a)
  }

  function Row(a: Attempt, key: Key): Evidence {
    Evidence(a.session, a.taskId, a.roleId, key.toolCallId, key.toolName, RecordOf(a.entries, key))
  }

  function RowsFor(a: Attempt, keys: seq<Key>): seq<Evidence> {
    seq(|keys|, i requires 0 <= i < |keys| => Row(a, keys[i]))
  }

  function Rows(a: Attempt): seq<Evidence> {
    RowsFor(a, a.keys)
  }

  /** One row for every call of every attempt, in order. */
  function AllRows(attempts: seq<Attempt>): seq<Evidence> {
    if attempts == [] then [] else AllRows(attempts[..|attempts| - 1]) + Rows(attempts[|attempts| - 1])
  }

  /** The reported error names a real violation. */
  predicate Violates(attempts: seq<Attempt>, e: Error) {
    && e.attempt < |attempts|
    && var a := attempts[e.attempt];
       match e
       case BadSession(n) => a.session == "" || a.session in SessionsOf(attempts)[..n]
       case BadCall(_, i) => i < |a.keys| && (!Named(a.keys[i]) || a.keys[i] in a.keys[..i])
       case WrongResultCount(_, i, count) => i < |a.keys| && count == |Matching(a.entries, a.keys[i])| != 1
       case BadResult(_, i) =>
         && i < |a.keys|
         && (|| RecordOf(a.entries, a.keys[i]) == ""
             || RecordOf(a.entries, a.keys[i]) in Records(a.keys, a.entries)[..i])
       case OrphanResults(_) => !NoOrphan(a.keys, a.entries)
  }

  lemma RepeatIsNotDistinct<T>(s: seq<T>, i: nat)
    requires i < |s| && s[i] in s[..i]
    ensures !Distinct(s)
  {
  }

  lemma ViolationBreaksClosure(attempts: seq<Attempt>, e: Error)
    requires Violates(attempts, e)
    ensures !LedgerCloses(attempts)
  {
    var a := attempts[e.attempt];
    assert a in attempts;
    match e
    case BadSession(n) =>
      if a.session != "" { RepeatIsNotDistinct(SessionsOf(attempts), n); }
    case BadCall(_, i) =>
      assert a.keys[i] in a.keys;
      if Named(a.keys[i]) { RepeatIsNotDistinct(a.keys, i); }
    case WrongResultCount(_, i, _) => assert a.keys[i] in a.keys;
    case BadResult(_, i) =>
      assert a.keys[i] in a.keys;
      if RecordOf(a.entries, a.keys[i]) != "" { RepeatIsNotDistinct(Records(a.keys, a.entries), i); }
    case OrphanResults(_) =>
  }

  lemma PrefixNext<T>(s: seq<T>, i: nat)
    requires i < |s|
    ensures s[..i + 1] == s[..i] + [s[i]]
  {
  }

  lemma DistinctNext<T>(s: seq<T>, x: T)
    requires Distinct(s) && x !in s
    ensures Distinct(s + [x])
  {
  }

  lemma DistinctSplit<T>(s: seq<T>, x: T)
    requires Distinct(s + [x])
    ensures Distinct(s) && x !in s
  {
    assert forall i | 0 <= i < |s| :: (s + [x])[i] == s[i] && (s + [x])[i] != (s + [x])[|s|];
  }

  lemma CallsCloseNext(keys: seq<Key>, entries: seq<Entry>, key: Key)
    requires CallsClose(keys, entries)
    requires Named(key) && key !in keys && |Matching(entries, key)| == 1
    requires RecordOf(entries, key) != "" && RecordOf(entries, key) !in Records(keys, entries)
    ensures CallsClose(keys + [key], entries)
  {
    DistinctNext(keys, key);
    DistinctNext(Records(keys, entries), RecordOf(entries, key));
    RecordsNext(keys, entries, key);
  }

  lemma RecordsNext(keys: seq<Key>, entries: seq<Entry>, key: Key)
    ensures Records(keys + [key], entries) == Records(keys, entries) + [RecordOf(entries, key)]
  {
  }

  /** The identities seen so far: those of earlier attempts, and those of the calls `keys` of this one. */
  ghost predicate Tracks(session: string, keys: seq<Key>, entries: seq<Entry>,
                         oldCalls: set<(string, Key)>, oldResults: set<(string, string)>,
                         calls: set<(string, Key)>, results: set<(string, string)>)
  {
    && (forall k :: (session, k) in calls <==> k in keys)
    && (forall x :: (session, x) in results <==> x in Records(keys, entries))
    && (forall c | c in calls :: c in oldCalls || c.0 == session)
    && (forall x | x in results :: x in oldResults || x.0 == session)
  }

  lemma TracksNext(session: string, keys: seq<Key>, entries: seq<Entry>,
                   oldCalls: set<(string, Key)>, oldResults: set<(string, string)>,
                   calls: set<(string, Key)>, results: set<(string, string)>, key: Key)
    requires Tracks(session, keys, entries, oldCalls, oldResults, calls, results)
    ensures Tracks(session, keys + [key], entries, oldCalls, oldResults,
                   calls + {(session, key)}, results + {(session, RecordOf(entries, key))})
  {
    RecordsNext(keys, entries, key);
  }

  lemma BadCallViolates(attempts: seq<Attempt>, n: nat, i: nat)
    requires n < |attempts| && i < |attempts[n].keys|
    requires !Named(attempts[n].keys[i]) || attempts[n].keys[i] in attempts[n].keys[..i]
    ensures Violates(attempts, BadCall(n, i))
  {
  }

  lemma WrongCountViolates(attempts: seq<Attempt>, n: nat, i: nat)
    requires n < |attempts| && i < |attempts[n].keys|
    requires |Matching(attempts[n].entries, attempts[n].keys[i])| != 1
    ensures Violates(attempts, WrongResultCount(n, i, |Matching(attempts[n].entries, attempts[n].keys[i])|))
  {
  }

  lemma BadResultViolates(attempts: seq<Attempt>, n: nat, i: nat)
    requires n < |attempts| && i < |attempts[n].keys|
    requires var a := attempts[n]; var record := RecordOf(a.entries, a.keys[i]);
      record == "" || record in Records(a.keys[..i], a.entries)
    ensures Violates(attempts, BadResult(n, i))
  {
    var a := attempts[n];
    assert Records(a.keys, a.entries)[..i] == Records(a.keys[..i], a.entries);
  }

  lemma RowsForNext(a: Attempt, keys: seq<Key>, key: Key)
    ensures RowsFor(a, keys + [key]) == RowsFor(a, keys) + [Row(a, key)]
  {
  }

  /** What the inner loop has found out about the calls `keys` of an attempt. */
  ghost predicate Closed(a: Attempt, keys: seq<Key>, evidence: seq<Evidence>,
                         oldCalls: set<(string, Key)>, oldResults: set<(string, string)>,
                         calls: set<(string, Key)>, results: set<(string, string)>)
  {
    && CallsClose(keys, a.entries)
    && evidence == RowsFor(a, keys)
    && Tracks(a.session, keys, a.entries, oldCalls, oldResults, calls, results)
  }

  /** One more call that has its own name and one result with its own record. */
  lemma ClosedNext(a: Attempt, keys: seq<Key>, evidence: seq<Evidence>,
                   oldCalls: set<(string, Key)>, oldResults: set<(string, string)>,
                   calls: set<(string, Key)>, results: set<(string, string)>, key: Key)
    requires Closed(a, keys, evidence, oldCalls, oldResults, calls, results)
    requires Named(key) && (a.session, key) !in calls && |Matching(a.entries, key)| == 1
    requires RecordOf(a.entries, key) != "" && (a.session, RecordOf(a.entries, key)) !in results
    ensures Closed(a, keys + [key], evidence + [Row(a, key)], oldCalls, oldResults,
                   calls + {(a.session, key)}, results + {(a.session, RecordOf(a.entries, key))})
  {
    CallsCloseNext(keys, a.entries, key);
    RowsForNext(a, keys, key);
    TracksNext(a.session, keys, a.entries, oldCalls, oldResults, calls, results, key);
  }

  /** The inner loop: every call of one attempt. */
  method CloseAttempt(attempts: seq<Attempt>, n: nat, seenCalls: set<(string, Key)>, seenResults: set<(string, string)>)
    returns (rows: Result<seq<Evidence>, Error>, calls: set<(string, Key)>, results: set<(string, string)>)
    requires n < |attempts| && attempts[n].session != ""
    requires forall c | c in seenCalls :: c.0 != attempts[n].session
    requires forall r | r in seenResults :: r.0 != attempts[n].session
    ensures rows.Ok? ==> AttemptCloses(attempts[n]) && rows.value == Rows(attempts[n])
    ensures rows.Err? ==> Violates(attempts, rows.error)
    ensures forall c | c in calls :: c in seenCalls || c.0 == attempts[n].session
    ensures forall r | r in results :: r in seenResults || r.0 == attempts[n].session
  {
    var a := attempts[n];
    calls, results := seenCalls, seenResults;
    var evidence: seq<Evidence> := [];
    var i := 0;
    while i < |a.keys|
      invariant i <= |a.keys|
      invariant Closed(a, a.keys[..i], evidence, seenCalls, seenResults, calls, results)
    {
      var key := a.keys[i];
      if key.toolCallId == "" || key.toolName == "" || (a.session, key) in calls {
        BadCallViolates(attempts, n, i);
        return Err(BadCall(n, i)), calls, results;
      }
      var matching := Matching(a.entries, key);
      if |matching| != 1 {
        WrongCountViolates(attempts, n, i);
        return Err(WrongResultCount(n, i, |matching|)), calls, results;
      }
      var record := matching[0].record;
      if record == "" || (a.session, record) in results {
        BadResultViolates(attempts, n, i);
        return Err(BadResult(n, i)), calls, results;
      }
      ClosedNext(a, a.keys[..i], evidence, seenCalls, seenResults, calls, results, key);
      PrefixNext(a.keys, i);
      calls := calls + {(a.session, key)};
      results := results + {(a.session, record)};
      evidence := evidence + [Row(a, key)];
      i := i + 1;
    }
    assert a.keys[..|a.keys|] == a.keys;
    if exists e | e in a.entries :: e.key !in a.keys {
      return Err(OrphanResults(n)), calls, results;
    }
    return Ok(evidence), calls, results;
  }

  /** `_native_tool_ledger_closure`: the evidence rows, or the first violation found. */
  method NativeToolLedgerClosure(details: seq<Detail>) returns (r: Result<seq<Evidence>, Error>)
    ensures r.Ok? <==> LedgerCloses(AllStripped(details))
    ensures r.Ok? ==> r.value == AllRows(AllStripped(details))
    ensures r.Err? ==> Violates(AllStripped(details), r.error)
  {
    r := CloseLedger(AllStripped(details));
  }

  /** The outer loop: every attempt. */
  method CloseLedger(attempts: seq<Attempt>) returns (r: Result<seq<Evidence>, Error>)
    ensures r.Ok? <==> LedgerCloses(attempts)
    ensures r.Ok? ==> r.value == AllRows(attempts)
    ensures r.Err? ==> Violates(attempts, r.error)
  {
    var seenSessions: set<string> := {};
    var seenCalls: set<(string, Key)> := {};
    var seenResults: set<(string, string)> := {};
    var evidence: seq<Evidence> := [];
    var n := 0;
    while n < |attempts|
      invariant n <= |attempts| && LedgerCloses(attempts[..n])
      invariant evidence == AllRows(attempts[..n])
      invariant forall s :: s in seenSessions <==> s in SessionsOf(attempts)[..n]
      invariant forall c | c in seenCalls :: c.0 in seenSessions
      invariant forall x | x in seenResults :: x.0 in seenSessions
    {
      var session := attempts[n].session;
      if session == "" || session in seenSessions {
        ViolationBreaksClosure(attempts, BadSession(n));
        return Err(BadSession(n));
      }
      var rows, calls, results := CloseAttempt(attempts, n, seenCalls, seenResults);
      if rows.Err? {
        ViolationBreaksClosure(attempts, rows.error);
        return Err(rows.error);
      }
      LedgerClosesNext(attempts, n);
      seenSessions := seenSessions + {session};
      evidence := evidence + rows.value;
      seenCalls, seenResults := calls, results;
      n := n + 1;
    }
    assert attempts[..|attempts|] == attempts;
    return Ok(evidence);
  }

  lemma LedgerClosesNext(attempts: seq<Attempt>, n: nat)
    requires n < |attempts| && LedgerCloses(attempts[..n])
    requires AttemptCloses(attempts[n]) && attempts[n].session !in SessionsOf(attempts)[..n]
    ensures LedgerCloses(attempts[..n + 1])
    ensures AllRows(attempts[..n + 1]) == AllRows(attempts[..n]) + Rows(attempts[n])
    ensures SessionsOf(attempts)[..n + 1] == SessionsOf(attempts)[..n] + [attempts[n].session]
  {
    var longer := attempts[..n + 1];
    PrefixNext(attempts, n);
    assert longer[..n] == attempts[..n];
    assert SessionsOf(attempts)[..n] == SessionsOf(attempts[..n]);
    DistinctNext(SessionsOf(attempts[..n]), attempts[n].session);
    assert SessionsOf(longer) == SessionsOf(attempts[..n]) + [attempts[n].session];
  }

  // --- what closure means ---

  lemma {:induction false} DistinctSize<T>(s: seq<T>)
    requires Distinct(s)
    ensures |set x | x in s| == |s|
  {
    if s == [] {
      assert (set x | x in s) == {};
    } else {
      DistinctSize(s[1..]);
      assert (set x | x in s) == {s[0]} + set x | x in s[1..];
    }
  }

  function EntryKeys(entries: seq<Entry>): seq<Key> {
    seq(|entries|, i requires 0 <= i < |entries| => entries[i].key)
  }

  lemma {:induction false} MatchedIsThere(entries: seq<Entry>, key: Key)
    ensures Matching(entries, key) != [] <==> key in EntryKeys(entries)
  {
    if entries != [] {
      MatchedIsThere(entries[1..], key);
      assert EntryKeys(entries) == [entries[0].key] + EntryKeys(entries[1..]);
    }
  }

  /** Two results with one key are two matches. */
  lemma {:induction false} SingleMatchesAreDistinct(entries: seq<Entry>)
    requires forall k | k in EntryKeys(entries) :: |Matching(entries, k)| <= 1
    ensures Distinct(EntryKeys(entries))
  {
    if entries != [] {
      var keys, rest := EntryKeys(entries), EntryKeys(entries[1..]);
      assert keys == [entries[0].key] + rest;
      forall k | k in rest ensures |Matching(entries[1..], k)| <= 1 {
        assert k in keys;
      }
      SingleMatchesAreDistinct(entries[1..]);
      MatchedIsThere(entries[1..], entries[0].key);
      assert entries[0].key in keys;
    }
  }

  /**
  In a ledger that closes, the calls and the results of every attempt correspond one to one by
  their keys: there are equally many, none without its partner, and no key occurs twice.
  */
  lemma CallsAndResultsCorrespond(attempts: seq<Attempt>, a: Attempt)
    requires LedgerCloses(attempts) && a in attempts
    ensures |a.keys| == |a.entries|
    ensures Distinct(a.keys) && Distinct(EntryKeys(a.entries))
    ensures forall k :: k in a.keys <==> k in EntryKeys(a.entries)
  {
    forall k ensures k in a.keys <==> k in EntryKeys(a.entries) {
      MatchedIsThere(a.entries, k);
      if k in EntryKeys(a.entries) {
        var i :| 0 <= i < |a.entries| && a.entries[i].key == k;
        assert a.entries[i] in a.entries;
      }
    }
    SingleMatchesAreDistinct(a.entries);
    DistinctSize(a.keys);
    DistinctSize(EntryKeys(a.entries));
    assert (set k | k in a.keys) == (set k | k in EntryKeys(a.entries));
  }

  function CallCount(attempts: seq<Attempt>): nat {
    if attempts == [] then 0 else CallCount(attempts[..|attempts| - 1]) + |attempts[|attempts| - 1].keys|
  }

  /** One evidence row per call, over all attempts. */
  lemma {:induction false} EvidenceCountsCalls(attempts: seq<Attempt>)
    ensures |AllRows(attempts)| == CallCount(attempts)
  {
    if attempts != [] {
      EvidenceCountsCalls(attempts[..|attempts| - 1]);
    }
  }

  lemma {:induction false} RowsBelong(attempts: seq<Attempt>, row: Evidence)
    requires row in AllRows(attempts)
    ensures row.runtimeSessionId in SessionsOf(attempts)
  {
    var before, a := attempts[..|attempts| - 1], attempts[|attempts| - 1];
    assert SessionsOf(attempts) == SessionsOf(before) + [a.session];
    if row !in Rows(a) {
      RowsBelong(before, row);
    }
  }

  function CallIdentity(row: Evidence): (string, Key) {
    (row.runtimeSessionId, Key(row.toolCallId, row.toolName))
  }

  function ResultIdentity(row: Evidence): (string, string) {
    (row.runtimeSessionId, row.recordId)
  }

  lemma ClosesBefore(attempts: seq<Attempt>)
    requires LedgerCloses(attempts) && attempts != []
    ensures LedgerCloses(attempts[..|attempts| - 1]) && AttemptCloses(attempts[|attempts| - 1])
    ensures attempts[|attempts| - 1].session !in SessionsOf(attempts[..|attempts| - 1])
  {
    var before := attempts[..|attempts| - 1];
    assert SessionsOf(attempts) == SessionsOf(before) + [attempts[|attempts| - 1].session];
    DistinctSplit(SessionsOf(before), attempts[|attempts| - 1].session);
    assert attempts[|attempts| - 1] in attempts && forall a | a in before :: a in attempts;
  }

  /** No two rows share a call identity or a result identity. */
  predicate RowsDiffer(rows: seq<Evidence>) {
    forall i, j | 0 <= i < j < |rows| ::
      CallIdentity(rows[i]) != CallIdentity(rows[j]) && ResultIdentity(rows[i]) != ResultIdentity(rows[j])
  }

  lemma RowsOfAttemptDiffer(a: Attempt)
    requires AttemptCloses(a)
    ensures RowsDiffer(Rows(a)) && forall row | row in Rows(a) :: row.runtimeSessionId == a.session
  {
    forall i, j | 0 <= i < j < |a.keys|
      ensures CallIdentity(Rows(a)[i]) != CallIdentity(Rows(a)[j])
      ensures ResultIdentity(Rows(a)[i]) != ResultIdentity(Rows(a)[j])
    {
      assert a.keys[i] != a.keys[j];
      assert Records(a.keys, a.entries)[i] != Records(a.keys, a.entries)[j];
    }
  }

  lemma RowsOfTwoDiffer(first: seq<Evidence>, second: seq<Evidence>, session: string)
    requires RowsDiffer(first) && RowsDiffer(second)
    requires forall row | row in first :: row.runtimeSessionId != session
    requires forall row | row in second :: row.runtimeSessionId == session
    ensures RowsDiffer(first + second)
  {
    var rows := first + second;
    forall i, j | 0 <= i < j < |rows|
      ensures CallIdentity(rows[i]) != CallIdentity(rows[j]) && ResultIdentity(rows[i]) != ResultIdentity(rows[j])
    {
      if i < |first| <= j { assert rows[i] in first && rows[j] in second; }
    }
  }

  /** No two evidence rows, of one attempt or of two, share a call identity or a result identity. */
  lemma {:induction false} IdentitiesAreDistinct(attempts: seq<Attempt>)
    requires LedgerCloses(attempts)
    ensures RowsDiffer(AllRows(attempts))
  {
    if attempts != [] {
      var before, a := attempts[..|attempts| - 1], attempts[|attempts| - 1];
      ClosesBefore(attempts);
      IdentitiesAreDistinct(before);
      RowsOfAttemptDiffer(a);
      forall row | row in AllRows(before) ensures row.runtimeSessionId != a.session {
        RowsBelong(before, row);
      }
      RowsOfTwoDiffer(AllRows(before), Rows(a), a.session);
    }
  }
}
