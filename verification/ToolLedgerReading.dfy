/**
Closing the ledger, said of the rows as they are stored: when an attempt is closed, and what its evidence
says.
*/
module ToolLedgerReading {
  import opened Text
  import opened ToolLedger

  /** The result carries the id and the name of the call, but for whitespace around them. */
  predicate Answers(result: ToolResult, call: Call) {
    Trim(result.toolCallId) == Trim(call.toolCallId) && Trim(result.toolName) == Trim(call.toolName)
  }

  predicate SameCall(a: Call, b: Call) {
    Trim(a.toolCallId) == Trim(b.toolCallId) && Trim(a.toolName) == Trim(b.toolName)
  }

  /** `pairing` leads from each call to the one result that answers it, and passes over no result. */
  ghost predicate Pairs(d: Detail, pairing: seq<nat>) {
    && |pairing| == |d.calls|
    && (forall i | 0 <= i < |d.calls| :: pairing[i] < |d.results| && Answers(d.results[pairing[i]], d.calls[i]))
    && (forall i, j | 0 <= i < j < |d.calls| :: pairing[i] != pairing[j])
    && (forall j: nat | j < |d.results| :: j in pairing)
  }

  /** The calls of an attempt have names of their own, and the results have record ids of their own. */
  ghost predicate Identified(d: Detail) {
    && Trim(d.runtimeSessionId) != ""
    && (forall i | 0 <= i < |d.calls| :: Trim(d.calls[i].toolCallId) != "" && Trim(d.calls[i].toolName) != "")
    && (forall i, j | 0 <= i < j < |d.calls| :: !SameCall(d.calls[i], d.calls[j]))
    && (forall j | 0 <= j < |d.results| :: Trim(d.results[j].recordId) != "")
    && (forall i, j | 0 <= i < j < |d.results| :: Trim(d.results[i].recordId) != Trim(d.results[j].recordId))
  }

  lemma {:induction false} NoMatch(entries: seq<Entry>, key: Key)
    requires forall j | 0 <= j < |entries| :: entries[j].key != key
    ensures Matching(entries, key) == []
  {
    if entries != [] {
      NoMatch(entries[1..], key);
    }
  }

  lemma {:induction false} OneMatch(entries: seq<Entry>, key: Key, at: nat)
    requires at < |entries| && forall j | 0 <= j < |entries| :: entries[j].key == key <==> j == at
    ensures Matching(entries, key) == [entries[at]]
  {
    if at == 0 {
      NoMatch(entries[1..], key);
    } else {
      assert forall j | 0 <= j < |entries[1..]| :: entries[1..][j] == entries[j + 1];
      OneMatch(entries[1..], key, at - 1);
    }
  }

  lemma KeysOfCalls(d: Detail, i: nat, j: nat)
    requires i < |d.calls| && j < |d.calls|
    ensures Stripped(d).keys[i] == Stripped(d).keys[j] <==> SameCall(d.calls[i], d.calls[j])
  {
  }

  lemma KeyOfResult(d: Detail, i: nat, j: nat)
    requires i < |d.calls| && j < |d.results|
    ensures Stripped(d).entries[j].key == Stripped(d).keys[i] <==> Answers(d.results[j], d.calls[i])
    ensures Stripped(d).entries[j].record == Trim(d.results[j].recordId)
  {
  }

  /** In a paired attempt the result of a call is the only one that answers it. */
  lemma PairedMatch(d: Detail, pairing: seq<nat>, i: nat)
    requires Identified(d) && Pairs(d, pairing) && i < |d.calls|
    ensures var a := Stripped(d); Matching(a.entries, a.keys[i]) == [a.entries[pairing[i]]]
  {
    var a := Stripped(d);
    forall j: nat | j < |a.entries| ensures a.entries[j].key == a.keys[i] <==> j == pairing[i] {
      assert j in pairing;
      var k: nat :| k < |pairing| && pairing[k] == j;
      KeyOfResult(d, i, j);
      KeyOfResult(d, k, j);
      KeysOfCalls(d, i, k);
      if k != i { assert !SameCall(d.calls[if i < k then i else k], d.calls[if i < k then k else i]); }
    }
    OneMatch(a.entries, a.keys[i], pairing[i]);
  }

  lemma PairedRecords(d: Detail, pairing: seq<nat>)
    requires Identified(d) && Pairs(d, pairing)
    ensures var a := Stripped(d); Distinct(Records(a.keys, a.entries))
  {
    var a := Stripped(d);
    forall i, j | 0 <= i < j < |a.keys| ensures Records(a.keys, a.entries)[i] != Records(a.keys, a.entries)[j] {
      PairedMatch(d, pairing, i);
      PairedMatch(d, pairing, j);
      var x, y := pairing[i], pairing[j];
      assert Trim(d.results[if x < y then x else y].recordId) != Trim(d.results[if x < y then y else x].recordId);
    }
  }

  lemma PairedCloses(d: Detail, pairing: seq<nat>)
    requires Identified(d) && Pairs(d, pairing)
    ensures AttemptCloses(Stripped(d))
  {
    hide Trim;
    var a := Stripped(d);
    forall i, j | 0 <= i < j < |a.keys| ensures a.keys[i] != a.keys[j] {
      KeysOfCalls(d, i, j);
    }
    forall k | k in a.keys ensures Named(k) && |Matching(a.entries, k)| == 1 && RecordOf(a.entries, k) != "" {
      var i: nat :| i < |a.keys| && a.keys[i] == k;
      PairedMatch(d, pairing, i);
    }
    PairedRecords(d, pairing);
    forall e | e in a.entries ensures e.key in a.keys {
      var j: nat :| j < |a.entries| && a.entries[j] == e;
      assert j in pairing;
      var i: nat :| i < |pairing| && pairing[i] == j;
      KeyOfResult(d, i, j);
    }
  }

  /** Where a key stands in a sequence of keys. */
  function PlaceOf(keys: seq<Key>, key: Key): (place: nat)
    requires key in keys
    ensures place < |keys| && keys[place] == key
  {
    if keys[0] == key then 0 else 1 + PlaceOf(keys[1..], key)
  }

  lemma AttemptCorresponds(a: Attempt)
    requires AttemptCloses(a)
    ensures Distinct(a.keys) && Distinct(EntryKeys(a.entries))
    ensures forall k :: k in a.keys <==> k in EntryKeys(a.entries)
  {
    CallsAndResultsCorrespond([a], a);
  }

  /** The places of keys among their own cover all places, when no place has the key of another. */
  lemma PlacesAreCovered(keys: seq<Key>, places: seq<Key>, pairing: seq<nat>, j: nat)
    requires Distinct(places) && forall k :: k in keys <==> k in places
    requires |pairing| == |keys|
    requires forall i | 0 <= i < |keys| :: pairing[i] < |places| && places[pairing[i]] == keys[i]
    requires j < |places|
    ensures j in pairing
  {
    assert places[j] in keys;
    var i :| 0 <= i < |keys| && keys[i] == places[j];
    assert pairing[i] == j;
  }

  lemma ClosedIsPaired(d: Detail) returns (pairing: seq<nat>)
    requires AttemptCloses(Stripped(d))
    ensures Pairs(d, pairing)
  {
    var a := Stripped(d);
    AttemptCorresponds(a);
    var places := EntryKeys(a.entries);
    forall i | 0 <= i < |a.keys| ensures a.keys[i] in places {
      assert a.keys[i] in a.keys;
    }
    pairing := seq(|a.keys|, i requires 0 <= i < |a.keys| => PlaceOf(places, a.keys[i]));
    PlacesPair(d, pairing);
  }

  lemma PlacesPair(d: Detail, pairing: seq<nat>)
    requires var a := Stripped(d); var places := EntryKeys(a.entries);
      && Distinct(a.keys) && Distinct(places) && (forall k :: k in a.keys <==> k in places)
      && |pairing| == |a.keys|
      && forall i | 0 <= i < |a.keys| :: pairing[i] < |places| && places[pairing[i]] == a.keys[i]
    ensures Pairs(d, pairing)
  {
    var a := Stripped(d);
    var places := EntryKeys(a.entries);
    forall i | 0 <= i < |d.calls| ensures pairing[i] < |d.results| && Answers(d.results[pairing[i]], d.calls[i]) {
      KeyOfResult(d, i, pairing[i]);
    }
    forall j: nat | j < |d.results| ensures j in pairing {
      PlacesAreCovered(a.keys, places, pairing, j);
    }
  }

  lemma ClosedRecord(d: Detail, pairing: seq<nat>, i: nat)
    requires AttemptCloses(Stripped(d)) && Pairs(d, pairing) && i < |d.calls|
    ensures RecordOf(Stripped(d).entries, Stripped(d).keys[i]) == Trim(d.results[pairing[i]].recordId) != ""
  {
    var a := Stripped(d);
    AttemptCorresponds(a);
    KeyOfResult(d, i, pairing[i]);
    assert a.keys[i] in a.keys;
    forall j | 0 <= j < |a.entries| ensures a.entries[j].key == a.keys[i] <==> j == pairing[i] {
      assert EntryKeys(a.entries)[j] == a.entries[j].key;
      assert EntryKeys(a.entries)[pairing[i]] == a.keys[i];
    }
    OneMatch(a.entries, a.keys[i], pairing[i]);
  }

  lemma ClosedIsIdentified(d: Detail, pairing: seq<nat>)
    requires AttemptCloses(Stripped(d)) && Pairs(d, pairing)
    ensures Identified(d)
  {
    var a := Stripped(d);
    forall i | 0 <= i < |d.calls| ensures Trim(d.calls[i].toolCallId) != "" && Trim(d.calls[i].toolName) != "" {
      assert a.keys[i] in a.keys && Named(a.keys[i]);
    }
    forall i, j | 0 <= i < j < |d.calls| ensures !SameCall(d.calls[i], d.calls[j]) {
      KeysOfCalls(d, i, j);
    }
    forall i, j | 0 <= i < |d.results| && 0 <= j < |d.results|
      ensures Trim(d.results[i].recordId) != ""
      ensures i != j ==> Trim(d.results[i].recordId) != Trim(d.results[j].recordId)
    {
      ClosedRecordsDiffer(d, pairing, i, j);
    }
  }

  function RecordsOf(d: Detail): seq<string> {
    Records(Stripped(d).keys, Stripped(d).entries)
  }

  lemma ClosedRecordAt(d: Detail, pairing: seq<nat>, j: nat) returns (i: nat)
    requires AttemptCloses(Stripped(d)) && Pairs(d, pairing) && j < |d.results|
    ensures i < |pairing| && pairing[i] == j
    ensures i < |RecordsOf(d)| && RecordsOf(d)[i] == Trim(d.results[j].recordId) != ""
  {
    assert j in pairing;
    i :| 0 <= i < |pairing| && pairing[i] == j;
    ClosedRecord(d, pairing, i);
  }

  lemma ClosedRecordsAreDistinct(d: Detail)
    requires AttemptCloses(Stripped(d))
    ensures Distinct(RecordsOf(d))
  {
  }

  lemma ClosedRecordsDiffer(d: Detail, pairing: seq<nat>, i: nat, j: nat)
    requires AttemptCloses(Stripped(d)) && Pairs(d, pairing) && i < |d.results| && j < |d.results|
    ensures Trim(d.results[i].recordId) != ""
    ensures i != j ==> Trim(d.results[i].recordId) != Trim(d.results[j].recordId)
  {
    var x := ClosedRecordAt(d, pairing, i);
    var y := ClosedRecordAt(d, pairing, j);
    ClosedRecordsAreDistinct(d);
    if i != j { DifferentAt(RecordsOf(d), x, y); }
  }

  lemma DifferentAt<T>(s: seq<T>, x: nat, y: nat)
    requires Distinct(s) && x < |s| && y < |s| && x != y
    ensures s[x] != s[y]
  {
    assert x < y || y < x;
  }

  /**
  An attempt closes if and only if its session, calls and records can be told apart and its calls and
  results can be paired off, by id and name, with nothing left over.
  */
  lemma AttemptClosesExactly(d: Detail)
    ensures AttemptCloses(Stripped(d)) <==> Identified(d) && exists pairing :: Pairs(d, pairing)
  {
    if AttemptCloses(Stripped(d)) {
      var pairing := ClosedIsPaired(d);
      ClosedIsIdentified(d, pairing);
    }
    if Identified(d) && exists pairing :: Pairs(d, pairing) {
      var pairing :| Pairs(d, pairing);
      PairedCloses(d, pairing);
    }
  }

  /** The ledger closes if and only if every attempt does and no two have one session. */
  lemma LedgerClosesExactly(details: seq<Detail>)
    ensures LedgerCloses(AllStripped(details)) <==>
            && (forall m, n | 0 <= m < n < |details| ::
              Trim(details[m].runtimeSessionId) != Trim(details[n].runtimeSessionId))
            && (forall d | d in details :: Identified(d) && exists pairing :: Pairs(d, pairing))
  {
    var attempts := AllStripped(details);
    forall n | 0 <= n < |details|
      ensures attempts[n] in attempts && details[n] in details
      ensures AttemptCloses(attempts[n]) <==> Identified(details[n]) && exists pairing :: Pairs(details[n], pairing)
      ensures SessionsOf(attempts)[n] == Trim(details[n].runtimeSessionId)
    {
      AttemptClosesExactly(details[n]);
    }
  }

  /** How many calls the first `n` attempts made. */
  function CallsBefore(details: seq<Detail>, n: nat): nat
    requires n <= |details|
  {
    if n == 0 then 0 else CallsBefore(details, n - 1) + |details[n - 1].calls|
  }

  lemma RowsOfOneMore(details: seq<Detail>, n: nat)
    requires n < |details|
    ensures AllRows(AllStripped(details)[..n + 1]) == AllRows(AllStripped(details)[..n]) + Rows(Stripped(details[n]))
  {
    var attempts := AllStripped(details)[..n + 1];
    assert attempts[..n] == AllStripped(details)[..n] && attempts[n] == Stripped(details[n]);
  }

  lemma {:induction false} RowsAreCounted(details: seq<Detail>, n: nat)
    requires n <= |details|
    ensures |AllRows(AllStripped(details)[..n])| == CallsBefore(details, n)
  {
    if n > 0 {
      RowsAreCounted(details, n - 1);
      RowsOfOneMore(details, n - 1);
    }
  }

  lemma RowOfAttempt(d: Detail, i: nat)
    requires i < |d.calls|
    ensures |Rows(Stripped(d))| == |d.calls| && Rows(Stripped(d))[i] == Row(Stripped(d), Stripped(d).keys[i])
  {
  }

  lemma {:induction false} RowStandsAt(details: seq<Detail>, n: nat, m: nat, i: nat)
    requires m < n <= |details| && i < |details[m].calls|
    ensures var rows, at := AllRows(AllStripped(details)[..n]), CallsBefore(details, m) + i;
      at < |rows| && rows[at] == Rows(Stripped(details[m]))[i]
  {
    hide AllRows, Rows, Stripped;
    var earlier, last := AllRows(AllStripped(details)[..n - 1]), Rows(Stripped(details[n - 1]));
    RowsOfOneMore(details, n - 1);
    RowOfAttempt(details[m], i);
    if m < n - 1 {
      RowStandsAt(details, n - 1, m, i);
      assert (earlier + last)[CallsBefore(details, m) + i] == earlier[CallsBefore(details, m) + i];
    } else {
      RowsAreCounted(details, n - 1);
      assert (earlier + last)[|earlier| + i] == last[i];
    }
  }

  /**
  Behind the rows of all earlier attempts and calls, the row of a call names its session, task and role,
  the call, and the record of the result that answers it.
  */
  lemma RowsAreExact(details: seq<Detail>, n: nat, pairing: seq<nat>, i: nat)
    requires LedgerCloses(AllStripped(details)) && n < |details| && Pairs(details[n], pairing)
    requires i < |details[n].calls|
    ensures var rows, at, d := AllRows(AllStripped(details)), CallsBefore(details, n) + i, details[n];
      && at < |rows|
      && rows[at] == Evidence(Trim(d.runtimeSessionId), d.taskId, d.roleId, Trim(d.calls[i].toolCallId),
                              Trim(d.calls[i].toolName), Trim(d.results[pairing[i]].recordId))
  {
    RowStandsAt(details, |details|, n, i);
    RowOfAttempt(details[n], i);
    assert AllStripped(details)[..|details|] == AllStripped(details);
    assert AllStripped(details)[n] in AllStripped(details);
    ClosedRecord(details[n], pairing, i);
  }
}
