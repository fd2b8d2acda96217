/**
The validator's answer to the file tools, and when a refused write is refused with the same feedback
after the workplace has changed.  How the other tools are judged is left open.
*/
module ToolPolicy {
  import opened Wrappers
  import opened Text
  import opened Json
  import opened ToolDecisions
  import ToolDecisionTheorems

  /**
  What one case allows: the files it has to produce, the feedback around the reason of a refusal, `str` of
  values that are no text, and the reason to refuse a call of any other tool.
  */
  datatype Policy = Policy(
    caseId: string, artifacts: seq<string>, head: string, tail: string,
    show: Json -> string, others: (Workplace, Call) -> Option<string>)

  const ESCAPES := "tool path escapes E2E workplace: "
  const UNEXPECTED := ": refusing unexpected write target: "
  const NO_REASON := "unmodelled_tool_call"

  /** `str(raw_path or ".").strip() or "."` */
  function PathText(show: Json -> string, raw: Option<Json>): string {
    if raw.None? || !Truthy(raw.value) then "."
    else OrElse(Trim(if raw.value.Str? then raw.value.s else show(raw.value)), ".")
  }

  /** `resolved.relative_to(root)` succeeds. */
  predicate IsWithin(root: string, resolved: string) {
    root == "/" || resolved == root || root + "/" <= resolved
  }

  /** `_path_in_workplace`; None when it raises. */
  function PathIn(w: Workplace, path: string): Option<string> {
    if IsWithin(w.resolve("."), w.resolve(path)) then Some(w.resolve(path)) else None
  }

  /** What becomes of a path that is to be written. */
  datatype Standing = Outside | Required | Elsewhere(quoted: string)

  predicate IsArtifact(policy: Policy, w: Workplace, target: string) {
    exists a | a in policy.artifacts :: w.resolve(a) == target
  }

  /** A path elsewhere is quoted in the refusal, without the whitespace at its end. */
  function StandingOf(policy: Policy, w: Workplace, path: string): Standing {
    var target := PathIn(w, path);
    if target.None? then Outside
    else if IsArtifact(policy, w, target.value) then Required
    else Elsewhere(TrimRight(target.value))
  }

  function ReadReason(w: Workplace, path: string): Option<string> {
    if PathIn(w, path).None? then Some(ESCAPES + path) else None
  }

  function WriteReason(policy: Policy, w: Workplace, path: string): Option<string> {
    var target := PathIn(w, path);
    if target.None? then Some(ESCAPES + path)
    else if IsArtifact(policy, w, target.value) then None
    else Some(policy.caseId + UNEXPECTED + target.value)
  }

  predicate IsWrite(call: Call) {
    Trim(call.name) == "file_write" || Trim(call.name) == "file_edit"
  }

  function WritePath(policy: Policy, call: Call): string {
    PathText(policy.show, Get(call.arguments, "path"))
  }

  /** `_validate_test_tool_call`: why the call is refused, None when it is not. */
  function Reason(policy: Policy, w: Workplace, call: Call): Option<string> {
    var name := Trim(call.name);
    if name == "file_read" || name == "list_dir" then ReadReason(w, PathText(policy.show, Get(call.arguments, "path")))
    else if name == "file_search" then ReadReason(w, PathText(policy.show, Get(call.arguments, "directory")))
    else if IsWrite(call) then WriteReason(policy, w, WritePath(policy, call))
    else policy.others(w, call)
  }

  /** `_tool_rejection_feedback` */
  function Feedback(policy: Policy, reason: string): string {
    policy.head + OrElse(Trim(reason), NO_REASON) + policy.tail
  }

  function AnswerOf(policy: Policy, reason: Option<string>): Verdict {
    if reason.None? then Modelled else Unmodelled(Feedback(policy, reason.value))
  }

  /** The validator of a case. */
  function Answer(policy: Policy): (Workplace, Call) -> Verdict {
    (w, call) => AnswerOf(policy, Reason(policy, w, call))
  }

  // --- what is approved ---

  /** Paths resolve to absolute paths. */
  ghost predicate IsAbsolute(w: Workplace) {
    forall path :: w.resolve(path) != "" && w.resolve(path)[0] == '/'
  }

  /** A case id is a word that no refusal of an escaping path starts like. */
  predicate IsCaseId(id: string) {
    id != "" && !IsSpace(id[0]) && id[0] != ESCAPES[0]
  }

  /** An approved write goes to a required file, inside the workplace if those are; an approved read stays inside. */
  lemma ApprovedFilesAreInside(policy: Policy, w: Workplace, call: Call)
    requires Answer(policy)(w, call).Modelled?
    requires forall a | a in policy.artifacts :: IsWithin(w.resolve("."), w.resolve(a))
    ensures IsWrite(call) ==> exists a :: a in policy.artifacts && w.resolve(a) == w.resolve(WritePath(policy, call))
    ensures IsWrite(call) || Trim(call.name) == "file_read" || Trim(call.name) == "list_dir" ==>
      IsWithin(w.resolve("."), w.resolve(WritePath(policy, call)))
    ensures Trim(call.name) == "file_search" ==>
      IsWithin(w.resolve("."), w.resolve(PathText(policy.show, Get(call.arguments, "directory"))))
  {
    assert "file_write"[5] == 'w' && "file_edit"[5] == 'e' && "file_read"[5] == 'r' && "list_dir"[0] == 'l';
    assert "file_search"[5] == 's';
  }

  /** The path that an argument stands for: "." when it is missing, empty or blank. */
  ghost predicate IsPath(policy: Policy, raw: Option<Json>, path: string) {
    match raw
    case None => path == "."
    case Some(v) =>
      var text := Trim(match v case Str(s) => s case _ => policy.show(v));
      path == if Truthy(v) && text != "" then text else "."
  }

  lemma PathIsExact(policy: Policy, raw: Option<Json>)
    ensures IsPath(policy, raw, PathText(policy.show, raw))
  {
    if raw.Some? && raw.value.Str? && raw.value.s != "" { assert Truthy(raw.value); }
  }

  /** Where the file tools look for their path. */
  ghost predicate IsFileCall(call: Call, key: string, writes: bool) {
    var name := Trim(call.name);
    || ((name == "file_read" || name == "list_dir") && key == "path" && !writes)
    || (name == "file_search" && key == "directory" && !writes)
    || ((name == "file_write" || name == "file_edit") && key == "path" && writes)
  }

  lemma FileCallReason(policy: Policy, w: Workplace, call: Call, key: string, writes: bool)
    requires IsFileCall(call, key, writes)
    ensures var path := PathText(policy.show, Get(call.arguments, key));
      Reason(policy, w, call) == if writes then WriteReason(policy, w, path) else ReadReason(w, path)
  {
    assert "file_write"[5] == 'w' && "file_edit"[5] == 'e' && "file_read"[5] == 'r' && "list_dir"[0] == 'l';
    assert "file_search"[5] == 's';
  }

  /**
  A read or a search is approved exactly when its path resolves to the workplace or a file below it, and a
  write exactly when, besides, a required file resolves to the same place.
  */
  lemma FilesAreApprovedExactly(policy: Policy, w: Workplace, call: Call, key: string, writes: bool, path: string)
    requires IsFileCall(call, key, writes) && IsPath(policy, Get(call.arguments, key), path)
    ensures Answer(policy)(w, call).Modelled? <==>
            var root, target := w.resolve("."), w.resolve(path);
            && (root == "/" || target == root || root + "/" <= target)
            && (writes ==> exists a :: a in policy.artifacts && w.resolve(a) == target)
  {
    PathIsExact(policy, Get(call.arguments, key));
    FileCallReason(policy, w, call, key, writes);
  }

  // --- when the feedback stays the same ---

  lemma {:induction false} TrimRightOfConcat(a: string, b: string)
    requires TrimRight(b) != ""
    ensures TrimRight(a + b) == a + TrimRight(b)
  {
    if IsSpace(b[|b| - 1]) {
      assert (a + b)[..|a + b| - 1] == a + b[..|b| - 1];
      TrimRightOfConcat(a, b[..|b| - 1]);
    }
  }

  lemma TrimRightKeepsFirst(s: string)
    requires s != "" && !IsSpace(s[0])
    ensures TrimRight(s) != "" && TrimRight(s)[0] == s[0] && Trim(s) == TrimRight(s)
  {
    TrimRightIsPrefix(s);
    var n := |TrimRight(s)|;
    assert s == s[..n] + s[n..];
  }

  /** The reason of a refused write as the feedback quotes it. */
  function Quoted(policy: Policy, path: string, standing: Standing): string
    requires !standing.Required?
  {
    match standing
    case Outside => TrimRight(ESCAPES + path)
    case Elsewhere(quoted) => policy.caseId + UNEXPECTED + quoted
  }

  lemma WriteIsQuoted(policy: Policy, w: Workplace, path: string)
    requires IsAbsolute(w) && IsCaseId(policy.caseId)
    ensures var reason, standing := WriteReason(policy, w, path), StandingOf(policy, w, path);
      && (reason.None? <==> standing.Required?)
      && (reason.Some? ==> OrElse(Trim(reason.value), NO_REASON) == Quoted(policy, path, standing))
  {
    var target := PathIn(w, path);
    if target.None? {
      assert (ESCAPES + path)[0] == ESCAPES[0] == 't';
      TrimRightKeepsFirst(ESCAPES + path);
    } else if !IsArtifact(policy, w, target.value) {
      var before := policy.caseId + UNEXPECTED;
      assert (before + target.value)[0] == policy.caseId[0];
      TrimRightKeepsFirst(before + target.value);
      TrimRightKeepsFirst(target.value);
      TrimRightOfConcat(before, target.value);
    }
  }

  lemma QuotesDiffer(policy: Policy, path: string, a: Standing, b: Standing)
    requires IsCaseId(policy.caseId) && !a.Required? && !b.Required?
    ensures Quoted(policy, path, a) == Quoted(policy, path, b) <==> a == b
  {
    assert (ESCAPES + path)[0] == ESCAPES[0] == 't';
    TrimRightKeepsFirst(ESCAPES + path);
    var before := policy.caseId + UNEXPECTED;
    if a.Elsewhere? {
      assert Quoted(policy, path, a)[0] == policy.caseId[0] && Quoted(policy, path, a)[|before|..] == a.quoted;
    }
    if b.Elsewhere? {
      assert Quoted(policy, path, b)[0] == policy.caseId[0] && Quoted(policy, path, b)[|before|..] == b.quoted;
    }
  }

  lemma FeedbackIsInjective(head: string, a: string, b: string, tail: string)
    ensures head + a + tail == head + b + tail <==> a == b
  {
    if head + a + tail == head + b + tail {
      assert |a| == |b|;
      assert (head + a + tail)[|head|..|head| + |a|] == a;
      assert (head + b + tail)[|head|..|head| + |b|] == b;
    }
  }

  lemma WriteAnswer(policy: Policy, w: Workplace, call: Call)
    requires IsWrite(call)
    ensures Answer(policy)(w, call) == AnswerOf(policy, WriteReason(policy, w, WritePath(policy, call)))
  {
    assert "file_write"[5] == 'w' && "file_edit"[5] == 'e' && "file_read"[5] == 'r' && "list_dir"[0] == 'l';
    assert "file_search"[5] == 's';
  }

  /** A refused write is told why: the path that leaves the workplace, or the place that is not to be written. */
  lemma RefusedWriteIsTold(policy: Policy, w: Workplace, call: Call)
    requires IsWrite(call) && IsCaseId(policy.caseId) && IsAbsolute(w)
    requires Answer(policy)(w, call).Unmodelled?
    ensures var path := WritePath(policy, call); var target := w.resolve(path);
      Answer(policy)(w, call).feedback == policy.head
        + (if IsWithin(w.resolve("."), target) then policy.caseId + UNEXPECTED + TrimRight(target)
           else TrimRight(ESCAPES + path))
        + policy.tail
  {
    WriteAnswer(policy, w, call);
    WriteIsQuoted(policy, w, WritePath(policy, call));
  }

  /**
  Two workplaces get one answer to a write if and only if its path stands alike in both: outside of the
  workplace, at a required file, or elsewhere in it at one and the same path.
  */
  lemma AnswersAgree(policy: Policy, first: Workplace, second: Workplace, call: Call)
    requires IsWrite(call) && IsCaseId(policy.caseId) && IsAbsolute(first) && IsAbsolute(second)
    ensures var path := WritePath(policy, call);
      Answer(policy)(first, call) == Answer(policy)(second, call) <==>
      StandingOf(policy, first, path) == StandingOf(policy, second, path)
  {
    var path := WritePath(policy, call);
    var a, b := StandingOf(policy, first, path), StandingOf(policy, second, path);
    WriteAnswer(policy, first, call);
    WriteAnswer(policy, second, call);
    WriteIsQuoted(policy, first, path);
    WriteIsQuoted(policy, second, path);
    if !a.Required? && !b.Required? {
      QuotesDiffer(policy, path, a, b);
      FeedbackIsInjective(policy.head, Quoted(policy, path, a), Quoted(policy, path, b), policy.tail);
    }
  }

  /**
  A checkpoint for a write that is refused before and after a change of the workplace, and whose first
  denial the engine did not record, is submitted with one text if and only if its path stands alike in both.
  */
  lemma TextFollowsThePath(t: Tools, policy: Policy, first: Workplace, second: Workplace,
                           id: Id, row: Row, found: Lookup)
    requires t.answer == Answer(policy) && ToolDecisionTheorems.IsOpen(t, id, row, found)
    requires IsWrite(row.call) && IsCaseId(policy.caseId) && IsAbsolute(first) && IsAbsolute(second)
    requires !StandingOf(policy, first, WritePath(policy, row.call)).Required?
    requires !StandingOf(policy, second, WritePath(policy, row.call)).Required?
    ensures var submissions := Run(t, first, ToolDecisionTheorems.TwoAttempts(id, row, found, second)).submissions;
      var path := WritePath(policy, row.call);
      && |submissions| == 2 && submissions[0].id == submissions[1].id == id
      && (submissions[0].text == submissions[1].text <==>
          StandingOf(policy, first, path) == StandingOf(policy, second, path))
  {
    var path := WritePath(policy, row.call);
    WriteAnswer(policy, first, row.call);
    WriteAnswer(policy, second, row.call);
    WriteIsQuoted(policy, first, path);
    WriteIsQuoted(policy, second, path);
    AnswersAgree(policy, first, second, row.call);
    ToolDecisionTheorems.AttemptsAreSubmitted(t, first, second, id, row, found);
  }

  /** A workplace at `root` in which `link` is a symbolic link to the file `target` beside it. */
  function Linked(root: string, link: string, target: string): Workplace {
    Workplace(path => if path == "." then root else if path == link then root + "/" + target else root + "/" + path)
  }

  lemma LinkStandsElsewhere(policy: Policy, root: string, link: string, target: string)
    requires link != "." && root != "" && TrimRight(target) != ""
    requires "." !in policy.artifacts && link !in policy.artifacts && target !in policy.artifacts
    ensures StandingOf(policy, Linked(root, link, target), link) == Elsewhere(root + "/" + TrimRight(target))
  {
    var w := Linked(root, link, target);
    TrimRightOfConcat(root + "/", target);
    forall a | a in policy.artifacts ensures w.resolve(a) != root + "/" + target {
      assert w.resolve(a)[|root| + 1..] == a;
      assert (root + "/" + target)[|root| + 1..] == target;
    }
  }

  /** Two files beside each other, neither of them required, in a workplace with an absolute root. */
  predicate AreBeside(policy: Policy, root: string, link: string, one: string, other: string) {
    && root != "" && root[0] == '/' && link != "."
    && "." !in policy.artifacts && link !in policy.artifacts && one !in policy.artifacts && other !in policy.artifacts
    && TrimRight(one) != "" && TrimRight(other) != "" && TrimRight(one) != TrimRight(other)
  }

  lemma LinkedIsAbsolute(root: string, link: string, target: string)
    requires root != "" && root[0] == '/'
    ensures IsAbsolute(Linked(root, link, target))
  {
  }

  lemma BesideDiffers(root: string, a: string, b: string)
    requires a != b
    ensures root + "/" + a != root + "/" + b
  {
    assert (root + "/" + a)[|root| + 1..] == a && (root + "/" + b)[|root| + 1..] == b;
  }

  lemma LinksStandApart(policy: Policy, root: string, link: string, one: string, other: string)
    requires AreBeside(policy, root, link, one, other)
    ensures var first, second := Linked(root, link, one), Linked(root, link, other);
      && IsAbsolute(first) && IsAbsolute(second)
      && StandingOf(policy, first, link).Elsewhere? && StandingOf(policy, second, link).Elsewhere?
      && StandingOf(policy, first, link) != StandingOf(policy, second, link)
  {
    LinkStandsElsewhere(policy, root, link, one);
    LinkStandsElsewhere(policy, root, link, other);
    BesideDiffers(root, TrimRight(one), TrimRight(other));
    LinkedIsAbsolute(root, link, one);
    LinkedIsAbsolute(root, link, other);
  }

  /** The path is a symbolic link that points to another file by the time of the second attempt: two texts. */
  lemma TextCanDrift(t: Tools, policy: Policy, root: string, link: string, one: string, other: string,
                     id: Id, row: Row, found: Lookup)
    requires t.answer == Answer(policy) && ToolDecisionTheorems.IsOpen(t, id, row, found)
    requires IsWrite(row.call) && IsCaseId(policy.caseId) && WritePath(policy, row.call) == link
    requires AreBeside(policy, root, link, one, other)
    ensures var first, second := Linked(root, link, one), Linked(root, link, other);
      var submissions := Run(t, first, ToolDecisionTheorems.TwoAttempts(id, row, found, second)).submissions;
      && |submissions| == 2 && submissions[0].id == submissions[1].id == id
      && submissions[0].text != submissions[1].text
  {
    LinksStandApart(policy, root, link, one, other);
    TextFollowsThePath(t, policy, Linked(root, link, one), Linked(root, link, other), id, row, found);
  }
}
