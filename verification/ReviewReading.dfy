/**
How a review is read, word by word: which words stand for which decision, where the decision is looked
for, which texts explain a rejection, and when a text supplies what the artifacts lack.
*/
module ReviewReading {
  import opened Wrappers
  import opened Text
  import opened Json
  import opened ReviewVerdict

  // --- words ---

  predicate MeansApproval(word: string) {
    || word == "approve" || word == "approved"
    || word == "pass" || word == "passed"
    || word == "accept" || word == "accepted"
  }

  predicate MeansRejection(word: string) {
    || word == "reject" || word == "rejected"
    || word == "fail" || word == "failed"
    || word == "rework"
  }

  /** The text, in lower case, is a word for the decision. */
  ghost predicate Names(t: Tools, text: string, decision: Label) {
    match decision
    case Approve => MeansApproval(t.lower(text))
    case Reject => MeansRejection(t.lower(text))
  }

  lemma NoWordMeansBoth(word: string)
    ensures !(MeansApproval(word) && MeansRejection(word))
  {
    assert MeansApproval(word) ==> word[0] == 'a' || |word| == 4 || |word| == 6;
    assert MeansApproval(word) && word[0] != 'a' ==> word[0] == 'p';
    assert MeansRejection(word) ==> word[0] == 'r' || word[0] == 'f';
  }

  /** Six words approve and five reject, in whatever case they are written; no other text decides. */
  lemma WordsNameDecisions(t: Tools, text: string)
    ensures forall decision: Label :: LabelOf(t, text) == Some(decision) <==> Names(t, text, decision)
    ensures LabelOf(t, text).None? <==> !Names(t, text, Approve) && !Names(t, text, Reject)
  {
    NoWordMeansBoth(t.lower(text));
  }

  // --- texts ---

  /** What a reader sees of a value: a text without the whitespace around it, and nothing of any other. */
  ghost function Visible(v: Option<Json>): string {
    match v
    case Some(Str(s)) => Trim(s)
    case _ => ""
  }

  /** Where the items stand that have a visible text, in order. */
  ghost predicate ArePositions(items: seq<Json>, positions: seq<nat>) {
    && (forall j, k | 0 <= j < k < |positions| :: positions[j] < positions[k])
    && (forall i: nat :: i in positions <==> i < |items| && Visible(Some(items[i])) != "")
  }

  /** The texts are those of the items at the positions. */
  ghost predicate StandAt(items: seq<Json>, texts: seq<string>, positions: seq<nat>) {
    && |positions| == |texts|
    && forall k | 0 <= k < |positions| :: positions[k] < |items| && texts[k] == Visible(Some(items[positions[k]]))
  }

  function Shift(positions: seq<nat>): (shifted: seq<nat>)
    ensures |shifted| == |positions| && forall k | 0 <= k < |positions| :: shifted[k] == positions[k] + 1
  {
    seq(|positions|, k requires 0 <= k < |positions| => positions[k] + 1)
  }

  lemma ShiftedMembers(positions: seq<nat>, i: nat)
    ensures i in Shift(positions) <==> i > 0 && i - 1 in positions
  {
    if i > 0 && i - 1 in positions {
      var k :| 0 <= k < |positions| && positions[k] == i - 1;
      assert Shift(positions)[k] == i;
    }
  }

  /** One more item in front moves the positions by one. */
  lemma PositionsOfOneMore(items: seq<Json>, positions: seq<nat>)
    requires items != [] && ArePositions(items[1..], positions)
    ensures if Visible(Some(items[0])) == "" then ArePositions(items, Shift(positions))
            else ArePositions(items, [0] + Shift(positions))
  {
    var shifted := Shift(positions);
    forall i: nat ensures i in shifted <==> 0 < i < |items| && Visible(Some(items[i])) != "" {
      ShiftedMembers(positions, i);
      if 0 < i < |items| { assert items[1..][i - 1] == items[i]; }
    }
    assert forall i: nat :: i in [0] + shifted <==> i == 0 || i in shifted;
  }

  lemma TextsOfOneMore(items: seq<Json>, texts: seq<string>, positions: seq<nat>)
    requires items != [] && StandAt(items[1..], texts, positions)
    ensures var first := Visible(Some(items[0]));
      if first == "" then StandAt(items, texts, Shift(positions))
      else StandAt(items, [first] + texts, [0] + Shift(positions))
  {
    hide Visible;
    forall k | 0 <= k < |positions|
      ensures positions[k] + 1 < |items| && texts[k] == Visible(Some(items[positions[k] + 1]))
    {
      assert items[1..][positions[k]] == items[positions[k] + 1];
    }
  }

  lemma {:induction false} TextsAreExact(items: seq<Json>) returns (positions: seq<nat>)
    ensures ArePositions(items, positions) && StandAt(items, Texts(items), positions)
  {
    if items == [] {
      positions := [];
    } else {
      hide ArePositions, StandAt;
      var later := TextsAreExact(items[1..]);
      PositionsOfOneMore(items, later);
      TextsOfOneMore(items, Texts(items[1..]), later);
      positions := if Visible(Some(items[0])) == "" then Shift(later) else [0] + Shift(later);
    }
  }

  /** The visible texts of a value that is a list, and none of any other. */
  ghost predicate IsListed(v: Option<Json>, texts: seq<string>) {
    match v
    case Some(List(items)) => exists positions :: ArePositions(items, positions) && StandAt(items, texts, positions)
    case _ => texts == []
  }

  lemma ItemsAreExact(v: Option<Json>)
    ensures IsListed(v, ItemsOf(v))
  {
    if v.Some? && v.value.List? {
      var positions := TextsAreExact(v.value.items);
    }
  }

  // --- mappings ---

  ghost predicate IsFilled(v: Option<Json>) {
    v.Some? && Truthy(v.value)
  }

  /** The value that decides: the first of five that is there and not empty. */
  ghost function Decisive(look: string -> Option<Json>): Option<Json> {
    if IsFilled(look("review_verdict")) then look("review_verdict")
    else if IsFilled(look("verdict")) then look("verdict")
    else if IsFilled(look("decision")) then look("decision")
    else if IsFilled(look("status")) then look("status")
    else if IsFilled(look("label")) then look("label")
    else None
  }

  /** The verdict that a mapping with the given decision and the given values gives. */
  ghost predicate Holds(t: Tools, word: string, summary: Option<Json>, issues: Option<Json>, followups: Option<Json>,
                        v: Option<Verdict>) {
    match v
    case None => !Names(t, word, Approve) && !Names(t, word, Reject)
    case Some(verdict) =>
      && Names(t, word, verdict.decision) && verdict.summary == Visible(summary)
      && verdict.blockingIssues.Some? && IsListed(issues, verdict.blockingIssues.value)
      && verdict.followups.Some? && IsListed(followups, verdict.followups.value)
  }

  ghost predicate IsReadAs(t: Tools, look: string -> Option<Json>, v: Option<Verdict>) {
    Holds(t, Visible(Decisive(look)), look("summary"), look("blocking_issues"), look("followups"), v)
  }

  lemma FirstTruthyOf(fields: Fields, key: string, rest: seq<string>)
    ensures FirstTruthy(fields, [key] + rest) ==
            if IsFilled(Get(fields, key)) then Get(fields, key) else FirstTruthy(fields, rest)
  {
    assert ([key] + rest)[1..] == rest;
  }

  lemma DecisiveIsFirstTruthy(fields: Fields, look: string -> Option<Json>)
    requires forall key :: look(key) == Get(fields, key)
    ensures FirstTruthy(fields, DECISION_KEYS) == Decisive(look)
  {
    var last := ["label"];
    var fourth := ["status"] + last;
    var third := ["decision"] + fourth;
    var second := ["verdict"] + third;
    assert DECISION_KEYS == ["review_verdict"] + second;
    FirstTruthyOf(fields, "review_verdict", second);
    FirstTruthyOf(fields, "verdict", third);
    FirstTruthyOf(fields, "decision", fourth);
    FirstTruthyOf(fields, "status", last);
    assert last == ["label"] + [];
    FirstTruthyOf(fields, "label", []);
  }

  lemma RecordHolds(t: Tools, fields: Fields)
    ensures Holds(t, Visible(FirstTruthy(fields, DECISION_KEYS)), Get(fields, "summary"),
                  Get(fields, "blocking_issues"), Get(fields, "followups"), NormalizeRecord(t, fields))
  {
    WordsNameDecisions(t, Visible(FirstTruthy(fields, DECISION_KEYS)));
    ItemsAreExact(Get(fields, "blocking_issues"));
    ItemsAreExact(Get(fields, "followups"));
  }

  lemma IsReadBy(t: Tools, fields: Fields, look: string -> Option<Json>)
    requires forall key :: look(key) == Get(fields, key)
    ensures IsReadAs(t, look, NormalizeRecord(t, fields))
  {
    hide Holds;
    DecisiveIsFirstTruthy(fields, look);
    RecordHolds(t, fields);
  }

  /**
  A mapping is read by the first filled of its five decision keys alone: when that is no word for a
  decision nothing is read, whatever the later keys say.
  */
  lemma MappingIsRead(t: Tools, fields: Fields)
    ensures IsReadAs(t, key => Get(fields, key), NormalizeRecord(t, fields))
  {
    IsReadBy(t, fields, key => Get(fields, key));
  }

  /** A plain text is a verdict when all of it, but for whitespace, is a word for one. */
  lemma PlainTextIsRead(t: Tools, text: string)
    ensures match Normalize(t, Str(text))
            case None => !Names(t, Trim(text), Approve) && !Names(t, Trim(text), Reject)
            case Some(v) => Names(t, Trim(text), v.decision) && v == Verdict(v.decision, Trim(text), None, None)
  {
    WordsNameDecisions(t, Trim(text));
  }

  /** The verdict in an envelope: of the mapping inside, or of the fields around a bare decision. */
  ghost predicate IsInEnvelope(t: Tools, fields: Fields, key: string, v: Option<Verdict>) {
    match Get(fields, key)
    case None => v.None?
    case Some(Record(inner)) => IsReadAs(t, k => Get(inner, k), v)
    case Some(bare) => IsReadAs(t, k => if k == "review_verdict" then Some(bare) else Get(fields, k), v)
  }

  lemma EnvelopeIsRead(t: Tools, fields: Fields, key: string)
    ensures IsInEnvelope(t, fields, key, FromEnvelope(t, fields, key))
  {
    var inner := Get(fields, key);
    if inner.Some? && inner.value.Record? {
      MappingIsRead(t, inner.value.fields);
    } else if inner.Some? {
      var around := Put(fields, "review_verdict", inner.value);
      forall k ensures Get(around, k) == if k == "review_verdict" then inner else Get(fields, k) {
        GetAfterPut(fields, "review_verdict", inner.value, k);
      }
      IsReadBy(t, around, k => if k == "review_verdict" then Some(inner.value) else Get(fields, k));
    }
  }

  /** An object is read by its envelope, else by its structured envelope, else by its own fields. */
  lemma ObjectIsRead(t: Tools, candidate: Json)
    returns (plain: Option<Verdict>, structured: Option<Verdict>, own: Option<Verdict>)
    ensures candidate.Record? ==>
      && IsInEnvelope(t, candidate.fields, "review_verdict", plain)
      && IsInEnvelope(t, candidate.fields, "structured_review_verdict", structured)
      && IsReadAs(t, key => Get(candidate.fields, key), own)
    ensures FromObject(t, candidate) ==
            if !candidate.Record? then None
            else if plain.Some? then plain
            else if structured.Some? then structured
            else own
  {
    plain, structured, own := None, None, None;
    if candidate.Record? {
      plain := FromEnvelope(t, candidate.fields, "review_verdict");
      structured := FromEnvelope(t, candidate.fields, "structured_review_verdict");
      own := NormalizeRecord(t, candidate.fields);
      EnvelopeIsRead(t, candidate.fields, "review_verdict");
      EnvelopeIsRead(t, candidate.fields, "structured_review_verdict");
      MappingIsRead(t, candidate.fields);
    }
  }

  // --- reasons ---

  /** A word for a decision, or one of the phrases that only repeat it. */
  predicate OnlyRepeats(phrase: string) {
    || MeansApproval(phrase) || MeansRejection(phrase)
    || phrase in {"", "no", "nope", "needs changes", "not approved", "n/a", "none", "null"}
    || phrase in {"拒绝", "驳回", "不通过", "未通过", "返工", "需要修改", "无", "暂无"}
  }

  ghost predicate AllMarks(text: string) {
    forall c | c in text :: c in MARKS
  }

  /** Between punctuation marks, and without regard to case, the text is `core`. */
  ghost predicate IsAround(folded: string, left: string, core: string, right: string) {
    folded == left + core + right && AllMarks(left) && AllMarks(right)
  }

  lemma AroundMore(folded: string, left: string, core: string, right: string, c: char)
    requires IsAround(folded, left, core, right) && c in MARKS
    ensures IsAround([c] + folded, [c] + left, core, right) && IsAround(folded + [c], left, core, right + [c])
  {
    hide MARKS;
    assert [c] + folded == ([c] + left) + core + right && folded + [c] == left + core + (right + [c]);
  }

  lemma {:induction false} StrippedIsAround(folded: string) returns (left: string, right: string)
    ensures IsAround(folded, left, Stripped(folded), right)
    ensures var core := Stripped(folded); core != "" ==> core[0] !in MARKS && core[|core| - 1] !in MARKS
  {
    hide MARKS;
    if folded != "" && folded[0] in MARKS {
      hide IsAround;
      left, right := StrippedIsAround(folded[1..]);
      AroundMore(folded[1..], left, Stripped(folded[1..]), right, folded[0]);
      left := [folded[0]] + left;
      assert folded == [folded[0]] + folded[1..];
    } else if folded != "" && folded[|folded| - 1] in MARKS {
      hide IsAround;
      left, right := StrippedIsAround(folded[..|folded| - 1]);
      AroundMore(folded[..|folded| - 1], left, Stripped(folded[..|folded| - 1]), right, folded[|folded| - 1]);
      right := right + [folded[|folded| - 1]];
      assert folded == folded[..|folded| - 1] + [folded[|folded| - 1]];
    } else {
      left, right := "", "";
      assert folded == "" + folded + "";
    }
  }

  /** Stripping marks finds the core of a text, when that does not begin or end with a mark itself. */
  lemma {:induction false} StrippedIsCore(folded: string, left: string, core: string, right: string)
    requires IsAround(folded, left, core, right)
    requires core != "" ==> core[0] !in MARKS && core[|core| - 1] !in MARKS
    ensures Stripped(folded) == core
    decreases |folded|
  {
    if left != "" {
      assert folded[0] == left[0] && left[0] in MARKS;
      StrippedIsCoreAgain(folded[1..], left[1..], core, right, folded);
    } else if core == "" && right != "" {
      assert folded[0] == right[0] && right[0] in MARKS;
      StrippedIsCoreAgain(folded[1..], "", "", right[1..], folded);
    } else if right != "" {
      assert folded[0] == core[0] && folded[|folded| - 1] == right[|right| - 1] && right[|right| - 1] in MARKS;
      StrippedIsCoreAgain(folded[..|folded| - 1], "", core, right[..|right| - 1], folded);
    } else {
      assert folded == core;
    }
  }

  lemma StrippedIsCoreAgain(shorter: string, left: string, core: string, right: string, folded: string)
    requires |shorter| < |folded|
    requires IsAround(shorter, left, core, right)
    requires core != "" ==> core[0] !in MARKS && core[|core| - 1] !in MARKS
    ensures Stripped(shorter) == core
    decreases |folded|, 0
  {
    StrippedIsCore(shorter, left, core, right);
  }

  predicate IsLetter(c: char) {
    'a' <= c <= 'z' || '\U{4E00}' <= c <= '\U{9FFF}'
  }

  lemma LettersAreNoMarks(c: char)
    requires IsLetter(c)
    ensures c !in MARKS
  {
  }

  lemma PhrasesAreLetters(phrase: string)
    requires OnlyRepeats(phrase) && phrase != ""
    ensures IsLetter(phrase[0]) && IsLetter(phrase[|phrase| - 1])
  {
  }

  lemma BareDecisionsRepeat(word: string)
    ensures word in BARE_DECISIONS <==> OnlyRepeats(word)
  {
  }

  /**
  A text explains nothing exactly when, in one case and between marks, it is one of the phrases that only
  repeat a decision.
  */
  lemma BareIsExact(t: Tools, text: string)
    ensures IsBare(t, text) <==> exists left, core, right :: IsAround(t.fold(text), left, core, right) && OnlyRepeats(core)
  {
    var folded := t.fold(text);
    BareDecisionsRepeat(Stripped(folded));
    if IsBare(t, text) {
      var left, right := StrippedIsAround(folded);
    }
    forall left, core, right | IsAround(folded, left, core, right) && OnlyRepeats(core)
      ensures IsBare(t, text)
    {
      BareDecisionsRepeat(core);
      if core != "" {
        PhrasesAreLetters(core);
        LettersAreNoMarks(core[0]);
        LettersAreNoMarks(core[|core| - 1]);
      }
      StrippedIsCore(folded, left, core, right);
    }
  }

  // --- the review as a whole ---

  /** A rejection with a reason: its summary or one of its blocking issues is not bare. */
  ghost predicate Explains(t: Tools, v: Verdict) {
    || v.decision == Approve
    || !IsBare(t, v.summary)
    || exists issue :: v.blockingIssues.Some? && issue in v.blockingIssues.value && !IsBare(t, issue)
  }

  /**
  The artifacts give the verdict whenever they hold one that needs no reason or gives it.  A bare
  rejection is replaced by the first verdict in the text exactly when that is a rejection with a reason.
  Without a verdict in the artifacts, the text's first one is taken, with or without a reason.
  */
  lemma VerdictIsExact(t: Tools, text: string, artifacts: Json)
    ensures var held, told := FromObject(t, artifacts), FirstVerdict(ScannerOf(t), text, 0);
      Parsed(t, text, artifacts) ==
      if held.None? then told
      else if !Explains(t, held.value) && told.Some? && told.value.decision == Reject && Explains(t, told.value) then told
      else held
  {
  }
}
