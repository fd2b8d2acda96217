/** The client request ids under which tool decisions are submitted. */
module DecisionRequest {
  import opened Text
  import opened ToolDecisions
  import ToolDecisionTheorems

  /** The prefix of the ids that the polling loop makes up, and the options that they can end in. */
  datatype Names = Names(prefix: string, approve: string, deny: string)

  const NAMES := Names("issue35-e2e:", "approve_once", "deny")

  function OptionId(n: Names, choice: Choice): string {
    match choice
    case ApproveOnce => n.approve
    case Deny => n.deny
    case OtherChoice(name) => name
  }

  /** `_decision_request_id`: a made-up id that ends in an option gets the option that was taken. */
  function DecisionRequestId(n: Names, clientRequestId: string, choice: Choice): string {
    var value := Trim(clientRequestId);
    var colon := RFind(value, ':', |value|);
    if n.prefix <= value && colon >= 0 && (value[colon + 1..] == n.approve || value[colon + 1..] == n.deny)
    then value[..colon] + [':'] + OptionId(n, choice)
    else value
  }

  /** The id of a decision on a checkpoint, up to its option. */
  function Stem(n: Names, session: string, id: Id): string {
    n.prefix + session + [':'] + id
  }

  /** The id that the polling loop makes up for a checkpoint. */
  function ClientRequestId(n: Names, session: string, id: Id): string {
    Stem(n, session, id) + [':'] + n.approve
  }

  function RequestId(n: Names, session: string, id: Id, choice: Choice): string {
    Stem(n, session, id) + [':'] + OptionId(n, choice)
  }

  /** The prefix starts, and the options end, with a visible character; options have no colon. */
  predicate WellNamed(n: Names) {
    && n.prefix != "" && !IsSpace(n.prefix[0])
    && n.approve != "" && !IsSpace(n.approve[|n.approve| - 1])
    && ':' !in n.approve && ':' !in n.deny
  }

  lemma NamesAreWell()
    ensures WellNamed(NAMES)
  {
    assert NAMES.prefix[0] == 'i' && NAMES.approve[11] == 'e';
  }

  /** Whatever characters the session and the checkpoint id contain. */
  lemma LoopIdsNameTheOption(n: Names, session: string, id: Id, choice: Choice)
    requires WellNamed(n)
    ensures DecisionRequestId(n, ClientRequestId(n, session, id), choice) == RequestId(n, session, id, choice)
  {
    var stem, value := Stem(n, session, id), ClientRequestId(n, session, id);
    assert value[0] == n.prefix[0] && value[|value| - 1] == n.approve[|n.approve| - 1];
    TrimIsTrimmed(value);
    RFindAtLast(stem, n.approve, ':');
    assert value[|stem| + 1..] == n.approve && value[..|stem|] == stem;
  }

  /** In one session two decisions have one request id only if checkpoint and option are the same. */
  lemma RequestIdsAreDistinct(n: Names, session: string, a: Id, b: Id, c: Choice, d: Choice)
    requires WellNamed(n) && !c.OtherChoice? && !d.OtherChoice?
    requires RequestId(n, session, a, c) == RequestId(n, session, b, d)
    ensures a == b && OptionId(n, c) == OptionId(n, d)
  {
    RFindAtLast(Stem(n, session, a), OptionId(n, c), ':');
    RFindAtLast(Stem(n, session, b), OptionId(n, d), ':');
    var id, before := RequestId(n, session, a, c), n.prefix + session + [':'];
    var end := |Stem(n, session, a)|;
    assert id[..end] == Stem(n, session, a) == Stem(n, session, b);
    assert id[end + 1..] == OptionId(n, c) == OptionId(n, d);
    assert id[..end][|before|..] == a == b;
  }

  /** The request ids with which the polling loop of one session submits. */
  function LoopTools(t: Tools): Tools {
    t.(requestId := (id, choice) => DecisionRequestId(NAMES, ClientRequestId(NAMES, t.session, id), choice))
  }

  /** In every run two submissions carry one request id exactly when they decide one checkpoint. */
  lemma OneRequestIdPerCheckpoint(t: Tools, w: Workplace, actions: seq<Action>, i: nat, j: nat)
    requires i < |Run(LoopTools(t), w, actions).submissions| && j < |Run(LoopTools(t), w, actions).submissions|
    ensures var submissions := Run(LoopTools(t), w, actions).submissions;
      submissions[i].requestId == submissions[j].requestId <==> submissions[i].id == submissions[j].id
  {
    var loop := LoopTools(t);
    var a, b := Run(loop, w, actions).submissions[i], Run(loop, w, actions).submissions[j];
    ToolDecisionTheorems.SubmissionsAgree(loop, w, actions, i, j);
    ToolDecisionTheorems.SubmissionsAgree(loop, w, actions, j, i);
    NamesAreWell();
    LoopIdsNameTheOption(NAMES, t.session, a.id, a.choice);
    LoopIdsNameTheOption(NAMES, t.session, b.id, b.choice);
    if a.requestId == b.requestId {
      RequestIdsAreDistinct(NAMES, t.session, a.id, b.id, a.choice, b.choice);
    }
  }

  /**
  An id from anywhere is stripped.  If it starts with the prefix and the text behind its last colon is one of
  the two options, that text is replaced by the option that was taken; otherwise it stays.
  */
  lemma RequestIdIsExact(n: Names, clientRequestId: string, choice: Choice, stem: string, last: string)
    requires ':' !in last
    ensures Trim(clientRequestId) == stem + [':'] + last ==>
      DecisionRequestId(n, clientRequestId, choice) ==
      if n.prefix <= stem + [':'] + last && (last == n.approve || last == n.deny)
      then stem + [':'] + OptionId(n, choice) else stem + [':'] + last
    ensures ':' !in Trim(clientRequestId) ==> DecisionRequestId(n, clientRequestId, choice) == Trim(clientRequestId)
  {
    var value := Trim(clientRequestId);
    if value == stem + [':'] + last {
      RFindAtLast(stem, last, ':');
      assert value[..|stem|] == stem && value[|stem| + 1..] == last;
    }
  }
}
