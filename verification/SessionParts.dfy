/**
Normalizing the parts of one stored message: legacy `tool_output` parts are paired with the
canonical `tool_result` parts they duplicate, and converted when there is none.
*/
module SessionParts {
  import opened Wrappers
  import opened Json
  import opened GreedyPairing

  /** The `part_type` of a stored part. */
  datatype Kind = ToolOutput | ToolResult | Other(name: string)

  datatype Part = Part(kind: Kind, payload: Fields)

  /** The library functions the code calls: `str` of a non-string, and `json.loads`. */
  datatype Library = Library(show: Json -> string, loads: string -> Option<Json>)

  const ENVELOPE := Str("envelope_v1")

  /** `str(payload.get(key, "") or "")` */
  function TextField(lib: Library, payload: Fields, key: string): string {
    var v := GetOr(payload, key, Str(""));
    if !Truthy(v) then "" else if v.Str? then v.s else lib.show(v)
  }

  /** The output a legacy part carries, decoded when it is JSON text. */
  function Output(lib: Library, payload: Fields): Json {
    var raw := GetOr(payload, "output", GetOr(payload, "text", GetOr(payload, "result", Str(""))));
    if raw.Str? && lib.loads(raw.s).Some? then lib.loads(raw.s).value else raw
  }

  /** May the legacy part be the duplicate of the canonical part? */
  predicate Accepts(lib: Library, legacy: Fields, canonical: Fields) {
    var output := Output(lib, legacy);
    var oldId := TextField(lib, legacy, "tool_call_id");
    var newId := TextField(lib, canonical, "tool_call_id");
    var oldName := GetOr(legacy, "tool_name", Null);
    var newName := GetOr(canonical, "tool_name", Null);
    var body := if output.Record? then GetOr(output.fields, "result", output) else output;
    var known := GetOr(canonical, "result", Str(""));
    && !(oldId != "" && newId != "" && oldId != newId)
    && !(Truthy(oldName) && Truthy(newName) && !AreEqual(oldName, newName))
    && ((oldId != "" && oldId == newId) || AreEqual(known, output) || AreEqual(known, body))
  }

  function Enriched(payload: Fields, output: Json): Fields {
    Put(Put(payload, "result", output), "result_format", ENVELOPE)
  }

  predicate IsEnvelope(payload: Fields) {
    Get(payload, "result_format") == Some(ENVELOPE)
  }

  function RoleOf(part: Part): Role {
    match part.kind
    case ToolOutput => Giver
    case ToolResult => Taker
    case Other(_) => Bystander
  }

  function Roles(parts: seq<Part>): seq<Role> {
    seq(|parts|, i requires 0 <= i < |parts| => RoleOf(parts[i]))
  }

  function Acceptances(lib: Library, parts: seq<Part>): Acceptance {
    (output: nat, result: nat) =>
      output < |parts| && result < |parts| && Accepts(lib, parts[output].payload, parts[result].payload)
  }

  /** From each duplicated canonical result to the legacy output it takes the envelope of. */
  function Matching(lib: Library, parts: seq<Part>, n: nat): map<nat, nat>
    requires n <= |parts|
  {
    Pairs(Roles(parts), Acceptances(lib, parts), n)
  }

  function Converted(lib: Library, part: Part): Part {
    Part(ToolResult, Enriched(part.payload, Output(lib, part.payload)))
  }

  function Merged(lib: Library, canonical: Part, legacy: Part): Part {
    if IsEnvelope(canonical.payload) then canonical
    else Part(ToolResult, Enriched(canonical.payload, Output(lib, legacy.payload)))
  }

  /** The part at `i` once the first `n` parts were visited, given the matching so far. */
  function View(lib: Library, parts: seq<Part>, matching: map<nat, nat>, n: nat, i: nat): Part
    requires i < |parts|
  {
    var part := parts[i];
    if part.kind.ToolOutput? && i < n && i !in matching.Values then Converted(lib, part)
    else if part.kind.ToolResult? && i in matching && matching[i] < |parts| then Merged(lib, part, parts[matching[i]])
    else part
  }

  /** The normalized message up to part `n`: matched legacy outputs are gone. */
  function Kept(lib: Library, parts: seq<Part>, matching: map<nat, nat>, n: nat): seq<Part>
    requires n <= |parts|
  {
    if n == 0 then []
    else
      Kept(lib, parts, matching, n - 1)
      + if n - 1 in matching.Values then [] else [View(lib, parts, matching, |parts|, n - 1)]
  }

  function Normalized(lib: Library, parts: seq<Part>): seq<Part> {
    Kept(lib, parts, Matching(lib, parts, |parts|), |parts|)
  }

  /** Where the entries stand once the first `n` parts were visited. */
  ghost predicate Visited(lib: Library, parts: seq<Part>, matching: map<nat, nat>, n: nat, entries: seq<Part>) {
    && |entries| == |parts|
    && forall i | 0 <= i < |parts| :: entries[i] == View(lib, parts, matching, n, i)
  }

  /** Visiting a legacy output that no canonical result accepts. */
  lemma VisitedAlone(lib: Library, parts: seq<Part>, matching: map<nat, nat>, n: nat, entries: seq<Part>)
    requires n < |parts| && parts[n].kind.ToolOutput? && n !in matching.Values
    requires Visited(lib, parts, matching, n, entries)
    ensures Visited(lib, parts, matching, n + 1, entries[n := Converted(lib, parts[n])])
  {
  }

  /** Visiting a legacy output that the canonical result `target` takes. */
  lemma VisitedPaired(lib: Library, parts: seq<Part>, matching: map<nat, nat>, n: nat, target: nat, entries: seq<Part>)
    requires n < |parts| && parts[n].kind.ToolOutput?
    requires target < |parts| && parts[target].kind.ToolResult? && target !in matching
    requires Visited(lib, parts, matching, n, entries)
    ensures Visited(lib, parts, matching[target := n], n + 1, entries[target := Merged(lib, parts[target], parts[n])])
  {
    ValuesAfter(matching, target, n);
  }

  /** The inner loop: the first canonical result that may duplicate the legacy part at `index`. */
  method FindTarget(lib: Library, parts: seq<Part>, consumed: map<nat, nat>, index: nat) returns (target: Option<nat>)
    requires index < |parts|
    ensures target == FirstCandidate(Roles(parts), Acceptances(lib, parts), consumed, index, 0)
  {
    var t := 0;
    while t < |parts|
      invariant t <= |parts|
      invariant FirstCandidate(Roles(parts), Acceptances(lib, parts), consumed, index, 0)
             == FirstCandidate(Roles(parts), Acceptances(lib, parts), consumed, index, t)
    {
      if parts[t].kind.ToolResult? && t !in consumed && Accepts(lib, parts[index].payload, parts[t].payload) {
        return Some(t);
      }
      t := t + 1;
    }
    return None;
  }

  /** One turn of the outer loop. */
  method VisitOutput(lib: Library, parts: seq<Part>, index: nat, entries: seq<Part>, consumed: map<nat, nat>)
    returns (visited: seq<Part>, taken: map<nat, nat>)
    requires index < |parts| && parts[index].kind.ToolOutput?
    requires consumed == Matching(lib, parts, index) && Visited(lib, parts, consumed, index, entries)
    ensures taken == Matching(lib, parts, index + 1) && Visited(lib, parts, taken, index + 1, visited)
  {
    PairsAreProper(Roles(parts), Acceptances(lib, parts), index);
    visited, taken := entries, consumed;
    var output := Output(lib, entries[index].payload);
    var target := FindTarget(lib, parts, consumed, index);
    if target.Some? {
      VisitedPaired(lib, parts, consumed, index, target.value, entries);
      var canonical := entries[target.value];
      if !IsEnvelope(canonical.payload) {
        visited := entries[target.value := Part(ToolResult, Enriched(canonical.payload, output))];
      }
      taken := consumed[target.value := index];
    } else {
      VisitedAlone(lib, parts, consumed, index, entries);
      visited := entries[index := Part(ToolResult, Enriched(entries[index].payload, output))];
    }
  }

  method NormalizedSessionParts(lib: Library, parts: seq<Part>) returns (result: seq<Part>)
    ensures result == Normalized(lib, parts)
  {
    var entries := parts;
    var consumed: map<nat, nat> := map[];
    var index := 0;
    while index < |parts|
      invariant index <= |parts|
      invariant consumed == Matching(lib, parts, index)
      invariant Visited(lib, parts, consumed, index, entries)
    {
      if parts[index].kind.ToolOutput? {
        entries, consumed := VisitOutput(lib, parts, index, entries, consumed);
      }
      index := index + 1;
    }
    result := [];
    index := 0;
    while index < |parts|
      invariant index <= |parts|
      invariant result == Kept(lib, parts, consumed, index)
    {
      if index !in consumed.Values {
        result := result + [entries[index]];
      }
      index := index + 1;
    }
  }

  // --- what normalization promises ---

  /** The matching joins canonical results with legacy outputs they accept, injectively both ways. */
  lemma MatchingIsInjective(lib: Library, parts: seq<Part>)
    ensures Injective(Matching(lib, parts, |parts|))
    ensures forall t | t in Matching(lib, parts, |parts|) ::
      var output := Matching(lib, parts, |parts|)[t];
      && t < |parts| && output < |parts|
      && parts[t].kind.ToolResult? && parts[output].kind.ToolOutput?
      && Accepts(lib, parts[output].payload, parts[t].payload)
  {
    PairingIsInjective(Roles(parts), Acceptances(lib, parts), |parts|);
    PairsAreProper(Roles(parts), Acceptances(lib, parts), |parts|);
  }

  /**
  The matching is greedy: a result that accepts an output was taken by an earlier output, or the
  output took it or a result before it.  So an output stays alone only when all are taken.
  */
  lemma MatchingIsGreedy(lib: Library, parts: seq<Part>, output: nat, result: nat)
    requires output < |parts| && parts[output].kind.ToolOutput?
    requires result < |parts| && parts[result].kind.ToolResult?
    requires Accepts(lib, parts[output].payload, parts[result].payload)
    ensures var matching := Matching(lib, parts, |parts|);
      || (result in matching && matching[result] < output)
      || exists t :: t in matching && matching[t] == output && t <= result
  {
    PairingIsGreedy(Roles(parts), Acceptances(lib, parts), output, result);
  }

  lemma {:induction false} KeptLength(lib: Library, parts: seq<Part>, matching: map<nat, nat>, n: nat)
    requires n <= |parts|
    ensures |Kept(lib, parts, matching, n)| == n - |set o | o in matching.Values && o < n|
  {
    var gone := matching.Values;
    if n == 0 {
      assert (set o | o in gone && o < 0) == {};
    } else {
      KeptLength(lib, parts, matching, n - 1);
      var fewer := set o | o in gone && o < n - 1;
      assert (set o | o in gone && o < n) == if n - 1 in gone then fewer + {n - 1} else fewer;
    }
  }

  /** One part disappears for each pair, and no other. */
  lemma LengthDropsByPairs(lib: Library, parts: seq<Part>)
    ensures |Normalized(lib, parts)| == |parts| - |Matching(lib, parts, |parts|)|
  {
    var matching := Matching(lib, parts, |parts|);
    KeptLength(lib, parts, matching, |parts|);
    PairsAreProper(Roles(parts), Acceptances(lib, parts), |parts|);
    PairingIsInjective(Roles(parts), Acceptances(lib, parts), |parts|);
    assert (set o | o in matching.Values && o < |parts|) == matching.Values;
  }

  lemma {:induction false} NoneLeftUpTo(lib: Library, parts: seq<Part>, matching: map<nat, nat>, n: nat)
    requires n <= |parts|
    ensures forall part | part in Kept(lib, parts, matching, n) :: !part.kind.ToolOutput?
  {
    if n > 0 {
      NoneLeftUpTo(lib, parts, matching, n - 1);
    }
  }

  /** No legacy output is left. */
  lemma NoLegacyOutputLeft(lib: Library, parts: seq<Part>)
    ensures forall part | part in Normalized(lib, parts) :: !part.kind.ToolOutput?
  {
    NoneLeftUpTo(lib, parts, Matching(lib, parts, |parts|), |parts|);
  }

  function Others(parts: seq<Part>): seq<Part> {
    if parts == [] then []
    else
      var part := parts[|parts| - 1];
      Others(parts[..|parts| - 1]) + if part.kind.Other? then [part] else []
  }

  lemma OthersOfOneMore(parts: seq<Part>, part: Part)
    ensures Others(parts + [part]) == Others(parts) + if part.kind.Other? then [part] else []
  {
    assert (parts + [part])[..|parts|] == parts;
  }

  lemma {:induction false} OthersKeptUpTo(lib: Library, parts: seq<Part>, matching: map<nat, nat>, n: nat)
    requires n <= |parts|
    requires forall t | t in matching :: matching[t] < |parts| && parts[matching[t]].kind.ToolOutput?
    ensures Others(Kept(lib, parts, matching, n)) == Others(parts[..n])
  {
    hide Others;
    if n > 0 {
      var part := View(lib, parts, matching, |parts|, n - 1);
      OthersKeptUpTo(lib, parts, matching, n - 1);
      OthersOfOneMore(Kept(lib, parts, matching, n - 1), part);
      OthersOfOneMore(parts[..n - 1], parts[n - 1]);
      if n - 1 in matching.Values {
        assert parts[n - 1].kind.ToolOutput?;
        assert Kept(lib, parts, matching, n) == Kept(lib, parts, matching, n - 1);
      } else {
        assert Kept(lib, parts, matching, n) == Kept(lib, parts, matching, n - 1) + [part];
        assert if parts[n - 1].kind.Other? then part == parts[n - 1] else part.kind.ToolResult?;
      }
      assert parts[..n] == parts[..n - 1] + [parts[n - 1]];
    }
  }

  /** Parts of every other kind keep their content and their order. */
  lemma OtherKindsUntouched(lib: Library, parts: seq<Part>)
    ensures Others(Normalized(lib, parts)) == Others(parts)
  {
    PairsAreProper(Roles(parts), Acceptances(lib, parts), |parts|);
    OthersKeptUpTo(lib, parts, Matching(lib, parts, |parts|), |parts|);
    assert parts[..|parts|] == parts;
  }

  /** The positions below `n` that are not `gone`, in order. */
  function Remaining(gone: set<nat>, n: nat): seq<nat> {
    if n == 0 then [] else Remaining(gone, n - 1) + if n - 1 in gone then [] else [n - 1]
  }

  lemma {:induction false} RemainingIsIncreasing(gone: set<nat>, n: nat)
    ensures forall i :: i in Remaining(gone, n) <==> 0 <= i < n && i !in gone
    ensures forall j, k | 0 <= j < k < |Remaining(gone, n)| :: Remaining(gone, n)[j] < Remaining(gone, n)[k]
  {
    if n > 0 {
      RemainingIsIncreasing(gone, n - 1);
      var before := Remaining(gone, n - 1);
      forall j | 0 <= j < |before| ensures before[j] < n - 1 {
        assert before[j] in before;
      }
    }
  }

  lemma {:induction false} KeptIsView(lib: Library, parts: seq<Part>, matching: map<nat, nat>, n: nat)
    requires n <= |parts|
    ensures var positions, kept := Remaining(matching.Values, n), Kept(lib, parts, matching, n);
      && |kept| == |positions|
      && forall k | 0 <= k < |kept| :: positions[k] < n && kept[k] == View(lib, parts, matching, |parts|, positions[k])
  {
    if n > 0 {
      KeptIsView(lib, parts, matching, n - 1);
    }
  }

  /**
  The normalized message is what becomes of the parts at the positions that were not paired away, in
  the order they had.
  */
  lemma NormalizedKeepsOrder(lib: Library, parts: seq<Part>) returns (positions: seq<nat>)
    ensures forall i :: i in positions <==> 0 <= i < |parts| && i !in Matching(lib, parts, |parts|).Values
    ensures forall j, k | 0 <= j < k < |positions| :: positions[j] < positions[k]
    ensures |Normalized(lib, parts)| == |positions|
    ensures forall k | 0 <= k < |positions| ::
      && positions[k] < |parts|
      && Normalized(lib, parts)[k] == View(lib, parts, Matching(lib, parts, |parts|), |parts|, positions[k])
  {
    var matching := Matching(lib, parts, |parts|);
    positions := Remaining(matching.Values, |parts|);
    RemainingIsIncreasing(matching.Values, |parts|);
    KeptIsView(lib, parts, matching, |parts|);
  }

  /** Where the part at `i` stands in the normalized message, if it is not paired away. */
  lemma KeptAt(lib: Library, parts: seq<Part>, i: nat) returns (k: nat)
    requires i < |parts| && i !in Matching(lib, parts, |parts|).Values
    ensures k < |Normalized(lib, parts)| == |Remaining(Matching(lib, parts, |parts|).Values, |parts|)|
    ensures Remaining(Matching(lib, parts, |parts|).Values, |parts|)[k] == i
    ensures Normalized(lib, parts)[k] == View(lib, parts, Matching(lib, parts, |parts|), |parts|, i)
  {
    var positions := Remaining(Matching(lib, parts, |parts|).Values, |parts|);
    RemainingIsIncreasing(Matching(lib, parts, |parts|).Values, |parts|);
    KeptIsView(lib, parts, Matching(lib, parts, |parts|), |parts|);
    assert i in positions;
    k :| 0 <= k < |positions| && positions[k] == i;
  }

  /** A result in envelope form survives as it is, in its place; so does one that no legacy output duplicates. */
  lemma EnvelopesUntouched(lib: Library, parts: seq<Part>, i: nat) returns (k: nat)
    requires i < |parts| && parts[i].kind.ToolResult?
    requires IsEnvelope(parts[i].payload) || i !in Matching(lib, parts, |parts|)
    ensures k < |Normalized(lib, parts)| == |Remaining(Matching(lib, parts, |parts|).Values, |parts|)|
    ensures Remaining(Matching(lib, parts, |parts|).Values, |parts|)[k] == i && Normalized(lib, parts)[k] == parts[i]
  {
    PairsAreProper(Roles(parts), Acceptances(lib, parts), |parts|);
    k := KeptAt(lib, parts, i);
  }

  lemma EnrichedFields(payload: Fields, output: Json, key: string)
    ensures Get(Enriched(payload, output), key) ==
            if key == "result_format" then Some(ENVELOPE)
            else if key == "result" then Some(output)
            else Get(payload, key)
  {
    GetAfterPut(Put(payload, "result", output), "result_format", ENVELOPE, key);
    GetAfterPut(payload, "result", output, key);
  }

  /** A part in envelope form that carries `output` and is otherwise like `original`. */
  ghost predicate Carries(part: Part, original: Fields, output: Json) {
    && part.kind.ToolResult? && IsEnvelope(part.payload)
    && Get(part.payload, "result") == Some(output)
    && forall key | key != "result" && key != "result_format" :: Get(part.payload, key) == Get(original, key)
  }

  lemma EnrichedCarries(payload: Fields, output: Json)
    ensures Carries(Part(ToolResult, Enriched(payload, output)), payload, output)
  {
    assert |"result"| != |"result_format"|;
    forall key
      ensures Get(Enriched(payload, output), key) ==
              if key == "result_format" then Some(ENVELOPE)
              else if key == "result" then Some(output)
              else Get(payload, key)
    {
      EnrichedFields(payload, output, key);
    }
  }

  /**
  A result that had lost its envelope gets it back in its place, with the output of the legacy part it was
  paired with.
  */
  lemma PairedResultsCarryTheOutput(lib: Library, parts: seq<Part>, result: nat) returns (k: nat)
    requires result in Matching(lib, parts, |parts|)
    requires result < |parts| && !IsEnvelope(parts[result].payload)
    ensures Matching(lib, parts, |parts|)[result] < |parts|
    ensures k < |Normalized(lib, parts)| == |Remaining(Matching(lib, parts, |parts|).Values, |parts|)|
    ensures Remaining(Matching(lib, parts, |parts|).Values, |parts|)[k] == result
    ensures Carries(Normalized(lib, parts)[k], parts[result].payload,
                    Output(lib, parts[Matching(lib, parts, |parts|)[result]].payload))
  {
    var matching := Matching(lib, parts, |parts|);
    PairsAreProper(Roles(parts), Acceptances(lib, parts), |parts|);
    k := KeptAt(lib, parts, result);
    EnrichedCarries(parts[result].payload, Output(lib, parts[matching[result]].payload));
  }

  /** A legacy output without a partner becomes, in its place, a result with its own output. */
  lemma LoneOutputsAreConverted(lib: Library, parts: seq<Part>, output: nat) returns (k: nat)
    requires output < |parts| && parts[output].kind.ToolOutput?
    requires output !in Matching(lib, parts, |parts|).Values
    ensures k < |Normalized(lib, parts)| == |Remaining(Matching(lib, parts, |parts|).Values, |parts|)|
    ensures Remaining(Matching(lib, parts, |parts|).Values, |parts|)[k] == output
    ensures Carries(Normalized(lib, parts)[k], parts[output].payload, Output(lib, parts[output].payload))
  {
    k := KeptAt(lib, parts, output);
    EnrichedCarries(parts[output].payload, Output(lib, parts[output].payload));
  }

  lemma {:induction false} NothingToPair(roles: seq<Role>, accepts: Acceptance, n: nat)
    requires n <= |roles| && forall role | role in roles :: !role.Giver?
    ensures Pairs(roles, accepts, n) == map[]
  {
    if n > 0 {
      NothingToPair(roles, accepts, n - 1);
      assert roles[n - 1] in roles;
    }
  }

  lemma {:induction false} KeptUnchanged(lib: Library, parts: seq<Part>, n: nat)
    requires n <= |parts| && forall part | part in parts :: !part.kind.ToolOutput?
    ensures Kept(lib, parts, map[], n) == parts[..n]
  {
    if n > 0 {
      assert parts[n - 1] in parts;
      KeptUnchanged(lib, parts, n - 1);
      assert parts[..n] == parts[..n - 1] + [parts[n - 1]];
    }
  }

  /** Normalizing a normalized message changes nothing. */
  lemma NormalizingTwiceIsOnce(lib: Library, parts: seq<Part>)
    ensures Normalized(lib, Normalized(lib, parts)) == Normalized(lib, parts)
  {
    var once := Normalized(lib, parts);
    NoLegacyOutputLeft(lib, parts);
    NothingToPair(Roles(once), Acceptances(lib, once), |once|);
    KeptUnchanged(lib, once, |once|);
  }
}
