/** Reading a review decision out of artifacts and text. */
module ReviewVerdict {
  import opened Wrappers
  import opened Text
  import opened Json

  datatype Label = Approve | Reject

  /** A verdict read from a plain text has no lists at all. */
  datatype Verdict = Verdict(
    decision: Label, summary: string, blockingIssues: Option<seq<string>>, followups: Option<seq<string>>)

  function ListOf(texts: Option<seq<string>>): seq<string> {
    if texts.Some? then texts.value else []
  }

  /**
  Library functions: `str.lower`; `str.casefold`; and `raw_decode`, with the length that it consumed, None
  when it raises.
  */
  datatype Tools = Tools(lower: string -> string, fold: string -> string, decode: string -> Option<(Json, nat)>)

  const APPROVALS := {"approve", "approved", "pass", "passed", "accept", "accepted"}
  const REJECTIONS := {"reject", "rejected", "fail", "failed", "rework"}

  /** Texts that name a decision, or nothing at all, without explaining it. */
  const BARE_DECISIONS := APPROVALS + REJECTIONS + {
    "", "no", "nope", "needs changes", "not approved", "n/a", "none", "null",
    "拒绝", "驳回", "不通过", "未通过", "返工", "需要修改", "无", "暂无"
  }

  /** Punctuation around a text that does not count. */
  const MARKS := {
    ' ', '\t', '\r', '\n', '.', '!', '?', '。', '！', '？', ':', '：', '`', '*', '#', '_', '-'
  }

  /** `text.strip(marks)` */
  function Stripped(text: string): string {
    if text == "" then ""
    else if text[0] in MARKS then Stripped(text[1..])
    else if text[|text| - 1] in MARKS then Stripped(text[..|text| - 1])
    else text
  }

  predicate IsBare(t: Tools, text: string) {
    Stripped(t.fold(text)) in BARE_DECISIONS
  }

  function LabelOf(t: Tools, text: string): Option<Label> {
    var lowered := t.lower(text);
    if lowered in APPROVALS then Some(Approve) else if lowered in REJECTIONS then Some(Reject) else None
  }

  // --- verdicts of objects ---

  /** `_text` */
  function TextOf(v: Option<Json>): string {
    if v.Some? && v.value.Str? then Trim(v.value.s) else ""
  }

  function Texts(items: seq<Json>): seq<string> {
    if items == [] then []
    else (if TextOf(Some(items[0])) == "" then [] else [TextOf(Some(items[0]))]) + Texts(items[1..])
  }

  /** `_items` */
  function ItemsOf(v: Option<Json>): seq<string> {
    if v.Some? && v.value.List? then Texts(v.value.items) else []
  }

  const DECISION_KEYS := ["review_verdict", "verdict", "decision", "status", "label"]

  /** The first truthy value under one of the keys. */
  function FirstTruthy(fields: Fields, keys: seq<string>): Option<Json> {
    if keys == [] then None
    else
      var v := Get(fields, keys[0]);
      if v.Some? && Truthy(v.value) then v else FirstTruthy(fields, keys[1..])
  }

  /** `normalize_review_verdict` of a mapping. */
  function NormalizeRecord(t: Tools, fields: Fields): Option<Verdict> {
    var word := LabelOf(t, TextOf(FirstTruthy(fields, DECISION_KEYS)));
    if word.None? then None
    else
      Some(Verdict(word.value, TextOf(Get(fields, "summary")),
                   Some(ItemsOf(Get(fields, "blocking_issues"))), Some(ItemsOf(Get(fields, "followups")))))
  }

  /** `normalize_review_verdict` */
  function Normalize(t: Tools, v: Json): Option<Verdict> {
    match v
    case Str(s) =>
      var word := LabelOf(t, Trim(s));
      if word.None? then None else Some(Verdict(word.value, Trim(s), None, None))
    case Record(fields) => NormalizeRecord(t, fields)
    case _ => None
  }

  /** The verdict in the envelope `key`; a bare inner value keeps the fields beside it. */
  function FromEnvelope(t: Tools, fields: Fields, key: string): Option<Verdict> {
    var inner := Get(fields, key);
    if inner.None? then None
    else if inner.value.Record? then NormalizeRecord(t, inner.value.fields)
    else NormalizeRecord(t, Put(fields, "review_verdict", inner.value))
  }

  /** `review_verdict_from_object` */
  function FromObject(t: Tools, candidate: Json): Option<Verdict> {
    if !candidate.Record? then None
    else
      var plain := FromEnvelope(t, candidate.fields, "review_verdict");
      var structured := FromEnvelope(t, candidate.fields, "structured_review_verdict");
      if plain.Some? then plain else if structured.Some? then structured else NormalizeRecord(t, candidate.fields)
  }

  /** `review_feedback_error`: a rejection that gives no reason. */
  predicate LacksFeedback(t: Tools, v: Verdict) {
    v.decision == Reject && IsBare(t, v.summary) && forall issue | issue in ListOf(v.blockingIssues) :: IsBare(t, issue)
  }

  // --- scanning a text ---

  /** How a scan decodes an object and finds the verdict in it. */
  datatype Scanner = Scanner(decode: string -> Option<(Json, nat)>, judge: Json -> Option<Verdict>)

  function ScannerOf(t: Tools): Scanner {
    Scanner(t.decode, candidate => FromObject(t, candidate))
  }

  /** `text.find("{", from)` */
  function FindBrace(text: string, from: nat): (p: int)
    ensures p == -1 || (from <= p < |text| && text[p] == '{')
    ensures forall i | from <= i < |text| && (p == -1 || i < p) :: text[i] != '{'
    decreases |text| - from
  {
    if from >= |text| then -1 else if text[from] == '{' then from else FindBrace(text, from + 1)
  }

  function Max(a: nat, b: nat): nat {
    if a < b then b else a
  }

  /** The verdict of the object that starts at `p`, if one can be decoded there. */
  function VerdictAt(sc: Scanner, text: string, p: nat): Option<Verdict>
    requires p <= |text|
  {
    var decoded := sc.decode(text[p..]);
    if decoded.None? then None else sc.judge(decoded.value.0)
  }

  /** Where the scan goes on after `p`: past a decoded object, or past a brace that starts none. */
  function After(sc: Scanner, text: string, p: nat): (next: nat)
    requires p <= |text|
    ensures next > p
  {
    var decoded := sc.decode(text[p..]);
    if decoded.None? then p + 1 else p + Max(decoded.value.1, 1)
  }

  /** The braces that a scan from `from` looks at, up to the first verdict. */
  function Visits(sc: Scanner, text: string, from: nat): seq<nat>
    decreases |text| - from
  {
    var p := FindBrace(text, from);
    if p < 0 then []
    else if VerdictAt(sc, text, p).Some? then [p]
    else [p] + Visits(sc, text, After(sc, text, p))
  }

  /** The verdict that a scan from `from` finds. */
  function FirstVerdict(sc: Scanner, text: string, from: nat): Option<Verdict>
    decreases |text| - from
  {
    var p := FindBrace(text, from);
    if p < 0 then None
    else if VerdictAt(sc, text, p).Some? then VerdictAt(sc, text, p)
    else FirstVerdict(sc, text, After(sc, text, p))
  }

  /** The artifacts' decision stands; a verdict in the text can only add the reason that it lacks. */
  function Combined(lacks: Verdict -> bool, fromArtifacts: Option<Verdict>, fromText: Option<Verdict>): Option<Verdict> {
    if fromText.None? then fromArtifacts
    else if fromArtifacts.None? then fromText
    else if fromText.value.decision == fromArtifacts.value.decision && !lacks(fromText.value) then fromText
    else fromArtifacts
  }

  function Lacking(t: Tools): Verdict -> bool {
    v => LacksFeedback(t, v)
  }

  /** What the parser returns. */
  function Parsed(t: Tools, text: string, artifacts: Json): Option<Verdict> {
    var fromArtifacts := FromObject(t, artifacts);
    if fromArtifacts.Some? && !LacksFeedback(t, fromArtifacts.value) then fromArtifacts
    else Combined(Lacking(t), fromArtifacts, FirstVerdict(ScannerOf(t), text, 0))
  }

  /** The scan goes on behind an object without a verdict, and behind a brace that starts none. */
  lemma ScanGoesOn(sc: Scanner, text: string, from: nat)
    requires FindBrace(text, from) >= 0 && VerdictAt(sc, text, FindBrace(text, from)).None?
    ensures FirstVerdict(sc, text, from) == FirstVerdict(sc, text, After(sc, text, FindBrace(text, from)))
  {
  }

  lemma ScanStops(sc: Scanner, text: string, from: nat)
    ensures var p := FindBrace(text, from);
      && (p < 0 ==> FirstVerdict(sc, text, from).None?)
      && (p >= 0 && VerdictAt(sc, text, p).Some? ==> FirstVerdict(sc, text, from) == VerdictAt(sc, text, p))
  {
  }

  /** The loop over the braces of the text. */
  method ScanText(sc: Scanner, text: string, lacks: Verdict -> bool, fromArtifacts: Option<Verdict>)
    returns (verdict: Option<Verdict>)
    ensures verdict == Combined(lacks, fromArtifacts, FirstVerdict(sc, text, 0))
  {
    hide FirstVerdict, FindBrace;
    var start := FindBrace(text, 0);
    ghost var from := 0;
    while start != -1
      invariant start == FindBrace(text, from)
      invariant FirstVerdict(sc, text, from) == FirstVerdict(sc, text, 0)
      decreases |text| - from
    {
      ScanStops(sc, text, from);
      if VerdictAt(sc, text, start).None? { ScanGoesOn(sc, text, from); }
      var decoded := sc.decode(text[start..]);
      if decoded.None? {
        from := start + 1;
        start := FindBrace(text, start + 1);
        continue;
      }
      var (candidate, consumed) := decoded.value;
      verdict := sc.judge(candidate);
      if verdict.Some? {
        if fromArtifacts.None? {
          return verdict;
        }
        if verdict.value.decision == fromArtifacts.value.decision && !lacks(verdict.value) {
          return verdict;
        }
        return fromArtifacts;
      }
      from := start + Max(consumed, 1);
      start := FindBrace(text, start + Max(consumed, 1));
    }
    ScanStops(sc, text, from);
    return fromArtifacts;
  }

  /** `parse_review_verdict` */
  method ParseReviewVerdict(t: Tools, text: string, artifacts: Json) returns (verdict: Option<Verdict>)
    ensures verdict == Parsed(t, text, artifacts)
  {
    var fromArtifacts := FromObject(t, artifacts);
    if fromArtifacts.Some? && !LacksFeedback(t, fromArtifacts.value) {
      return fromArtifacts;
    }
    verdict := ScanText(ScannerOf(t), text, Lacking(t), fromArtifacts);
  }

  // --- what the result means ---

  /** A decision in the artifacts is never overturned by the text. */
  lemma ArtifactsDecide(t: Tools, text: string, artifacts: Json)
    ensures var fromArtifacts, result := FromObject(t, artifacts), Parsed(t, text, artifacts);
      && (fromArtifacts.Some? ==> result.Some? && result.value.decision == fromArtifacts.value.decision)
      && (fromArtifacts.None? ==> result == FirstVerdict(ScannerOf(t), text, 0))
      && (result.Some? && LacksFeedback(t, result.value) && fromArtifacts.Some? ==> result == fromArtifacts)
  {
  }

  /** Braces after `p` and before `next` are inside an object without a verdict that starts at `p`. */
  predicate SkipsWhole(sc: Scanner, text: string, p: nat, next: nat)
    requires p <= |text|
  {
    forall b | p < b < next && b < |text| && text[b] == '{' ::
      var decoded := sc.decode(text[p..]);
      decoded.Some? && sc.judge(decoded.value.0).None? && b < p + decoded.value.1
  }

  /** The object that starts at `p`, if there is one, ends before `next`. */
  predicate IsPast(sc: Scanner, text: string, p: nat, next: nat)
    requires p <= |text|
  {
    var decoded := sc.decode(text[p..]);
    decoded.Some? ==> p + decoded.value.1 <= next
  }

  lemma AfterSkipsWhole(sc: Scanner, text: string, p: nat)
    requires p < |text| && VerdictAt(sc, text, p).None?
    ensures var next := FindBrace(text, After(sc, text, p)); SkipsWhole(sc, text, p, if next < 0 then |text| else next)
  {
  }

  /** The visits from `from` on, and where the next one would be. */
  predicate IsScan(sc: Scanner, text: string, visits: seq<nat>) {
    && (forall i | 0 <= i < |visits| :: visits[i] < |text| && text[visits[i]] == '{')
    && (forall i | 0 <= i < |visits| - 1 :: visits[i] < visits[i + 1])
    && (forall i | 0 <= i < |visits| - 1 :: VerdictAt(sc, text, visits[i]).None?)
    && (forall i | 0 <= i < |visits| - 1 :: SkipsWhole(sc, text, visits[i], visits[i + 1]))
    && (forall i | 0 <= i < |visits| - 1 :: IsPast(sc, text, visits[i], visits[i + 1]))
  }

  /** One more visit in front of the later ones. */
  lemma ScanOfOneMore(sc: Scanner, text: string, p: nat, later: seq<nat>)
    requires p < |text| && text[p] == '{' && VerdictAt(sc, text, p).None? && IsScan(sc, text, later)
    requires later != [] ==> later[0] == FindBrace(text, After(sc, text, p))
    ensures IsScan(sc, text, [p] + later)
  {
    var visits := [p] + later;
    AfterSkipsWhole(sc, text, p);
    forall i | 0 <= i < |visits| - 1
      ensures VerdictAt(sc, text, visits[i]).None? && visits[i] < visits[i + 1]
      ensures SkipsWhole(sc, text, visits[i], visits[i + 1]) && IsPast(sc, text, visits[i], visits[i + 1])
    {
      if i > 0 { assert visits[i] == later[i - 1] && visits[i + 1] == later[i]; }
    }
  }

  /**
  The scan goes through the braces in order, those inside an object that it decoded excepted.  A brace that
  it passes over lies inside such an object without a verdict; one that starts no object is stepped over;
  and the first object with a verdict is the result.  Without one, every brace has been visited or lies inside such an object.
  */
  lemma {:induction false} ScanIsExact(sc: Scanner, text: string, from: nat)
    ensures var visits, result := Visits(sc, text, from), FirstVerdict(sc, text, from);
      && IsScan(sc, text, visits)
      && (visits != [] ==> visits[0] >= from && visits[0] == FindBrace(text, from))
      && (visits == [] ==> FindBrace(text, from) == -1 && result.None?)
      && (visits != [] ==> VerdictAt(sc, text, visits[|visits| - 1]) == result)
      && (visits != [] && result.None? ==> SkipsWhole(sc, text, visits[|visits| - 1], |text|))
    decreases |text| - from
  {
    var p := FindBrace(text, from);
    if p >= 0 && VerdictAt(sc, text, p).None? {
      ScanIsExact(sc, text, After(sc, text, p));
      ScanOfOneMore(sc, text, p, Visits(sc, text, After(sc, text, p)));
      AfterSkipsWhole(sc, text, p);
    }
  }

  // --- normal forms ---

  function JsonTexts(texts: seq<string>): seq<Json> {
    seq(|texts|, i requires 0 <= i < |texts| => Str(texts[i]))
  }

  function LabelText(decision: Label): string {
    if decision == Approve then "approve" else "reject"
  }

  function ListField(key: string, texts: Option<seq<string>>, rest: Fields): Fields {
    if texts.None? then rest else Field(key, List(JsonTexts(texts.value)), rest)
  }

  /** The mapping that stands for a verdict. */
  function RecordOf(v: Verdict): Fields {
    Field("label", Str(LabelText(v.decision)),
      Field("summary", Str(v.summary),
        ListField("blocking_issues", v.blockingIssues, ListField("followups", v.followups, End))))
  }

  /** Texts as the normalizer leaves them: stripped, and in lists not empty. */
  predicate IsNormal(v: Verdict) {
    Trimmed(v.summary) && AllTexts(ListOf(v.blockingIssues)) && AllTexts(ListOf(v.followups))
  }

  /** The same verdict with the lists that are missing as empty ones. */
  function Filled(v: Verdict): Verdict {
    v.(blockingIssues := Some(ListOf(v.blockingIssues)), followups := Some(ListOf(v.followups)))
  }

  predicate AllTexts(texts: seq<string>) {
    forall x | x in texts :: Trimmed(x) && x != ""
  }

  lemma {:induction false} TextsAreNormal(items: seq<Json>)
    ensures AllTexts(Texts(items))
  {
    if items != [] {
      TextsAreNormal(items[1..]);
      if items[0].Str? { TrimIsTrimmed(items[0].s); }
    }
  }

  lemma {:induction false} TextsOfNormal(texts: seq<string>)
    requires AllTexts(texts)
    ensures Texts(JsonTexts(texts)) == texts
  {
    if texts != [] {
      assert JsonTexts(texts)[1..] == JsonTexts(texts[1..]);
      assert texts[0] in texts;
      TrimIsTrimmed(texts[0]);
      TextsOfNormal(texts[1..]);
    }
  }

  lemma NormalizeRecordIsNormal(t: Tools, fields: Fields)
    requires NormalizeRecord(t, fields).Some?
    ensures IsNormal(NormalizeRecord(t, fields).value)
  {
    var blocking, followups := Get(fields, "blocking_issues"), Get(fields, "followups");
    var summary := Get(fields, "summary");
    if summary.Some? && summary.value.Str? { TrimIsTrimmed(summary.value.s); }
    if blocking.Some? && blocking.value.List? { TextsAreNormal(blocking.value.items); }
    if followups.Some? && followups.value.List? { TextsAreNormal(followups.value.items); }
  }

  /** The two words in which a verdict is written down are lower case. */
  ghost predicate KnowsLabels(t: Tools) {
    t.lower("approve") == "approve" && t.lower("reject") == "reject"
  }

  lemma WrittenLabelIsRead(t: Tools, decision: Label)
    requires KnowsLabels(t)
    ensures Trim(LabelText(decision)) == LabelText(decision) && LabelOf(t, LabelText(decision)) == Some(decision)
  {
    TrimIsTrimmed(LabelText(decision));
    assert "reject"[0] == 'r' && forall word | word in APPROVALS :: word[0] == 'a' || word[0] == 'p';
  }

  lemma {:induction false} FirstTruthyAt(fields: Fields, keys: seq<string>, k: nat)
    requires k < |keys| && Get(fields, keys[k]).Some? && Truthy(Get(fields, keys[k]).value)
    requires forall i | 0 <= i < k :: Get(fields, keys[i]).None?
    ensures FirstTruthy(fields, keys) == Get(fields, keys[k])
  {
    if k > 0 {
      FirstTruthyAt(fields, keys[1..], k - 1);
    }
  }

  lemma GetListField(key: string, texts: Option<seq<string>>, rest: Fields, other: string)
    ensures Get(ListField(key, texts, rest), other) ==
            if other == key && texts.Some? then Some(List(JsonTexts(texts.value))) else Get(rest, other)
  {
  }

  lemma FieldsOfRecord(v: Verdict, key: string)
    ensures Get(RecordOf(v), key) ==
            if key == "label" then Some(Str(LabelText(v.decision)))
            else if key == "summary" then Some(Str(v.summary))
            else if key == "blocking_issues" && v.blockingIssues.Some? then Some(List(JsonTexts(v.blockingIssues.value)))
            else if key == "followups" && v.followups.Some? then Some(List(JsonTexts(v.followups.value)))
            else None
  {
    var last := ListField("followups", v.followups, End);
    GetListField("followups", v.followups, End, key);
    GetListField("blocking_issues", v.blockingIssues, last, key);
    assert RecordOf(v).rest.rest == ListField("blocking_issues", v.blockingIssues, last);
  }

  /** Words of the record and of the other decision keys, told apart by length or first letter. */
  lemma DecisionOfRecord(v: Verdict)
    ensures FirstTruthy(RecordOf(v), DECISION_KEYS) == Some(Str(LabelText(v.decision)))
  {
    var keys := DECISION_KEYS;
    forall i | 0 <= i < 4 ensures Get(RecordOf(v), keys[i]).None? {
      FieldsOfRecord(v, keys[i]);
      assert |keys[0]| == 14 && keys[1][0] == 'v' && |keys[2]| == 8 && |keys[3]| == 6;
    }
    assert keys[4] == "label";
    FieldsOfRecord(v, keys[4]);
    FirstTruthyAt(RecordOf(v), keys, 4);
  }

  lemma ItemsOfListed(found: Option<Json>, texts: Option<seq<string>>)
    requires found == (if texts.Some? then Some(List(JsonTexts(texts.value))) else None) && AllTexts(ListOf(texts))
    ensures ItemsOf(found) == ListOf(texts)
  {
    TextsOfNormal(ListOf(texts));
  }

  lemma TextsOfRecord(v: Verdict)
    requires IsNormal(v)
    ensures TextOf(Get(RecordOf(v), "summary")) == v.summary
    ensures ItemsOf(Get(RecordOf(v), "blocking_issues")) == ListOf(v.blockingIssues)
    ensures ItemsOf(Get(RecordOf(v), "followups")) == ListOf(v.followups)
  {
    FieldsOfRecord(v, "summary");
    TrimIsTrimmed(v.summary);
    FieldsOfRecord(v, "blocking_issues");
    ItemsOfListed(Get(RecordOf(v), "blocking_issues"), v.blockingIssues);
    FieldsOfRecord(v, "followups");
    ItemsOfListed(Get(RecordOf(v), "followups"), v.followups);
  }

  /** The mapping of a verdict in normal form is read as that verdict, with lists that are there. */
  lemma NormalFormIsRead(t: Tools, v: Verdict)
    requires KnowsLabels(t) && IsNormal(v)
    ensures NormalizeRecord(t, RecordOf(v)) == Some(Filled(v))
  {
    DecisionOfRecord(v);
    WrittenLabelIsRead(t, v.decision);
    TextsOfRecord(v);
  }

  /**
  Normalizing what has been normalized changes nothing if and only if it was a mapping: a plain text
  comes back with two empty lists that it did not have.
  */
  lemma NormalizingIsIdempotent(t: Tools, value: Json)
    requires KnowsLabels(t) && Normalize(t, value).Some?
    ensures var once := Normalize(t, value); var twice := Normalize(t, Record(RecordOf(once.value)));
      twice == Some(Filled(once.value)) && (twice == once <==> value.Record?)
  {
    if value.Record? {
      NormalizeRecordIsNormal(t, value.fields);
    } else {
      TrimIsTrimmed(value.s);
    }
    NormalFormIsRead(t, Normalize(t, value).value);
  }

  // --- envelopes ---

  /**
  A nested envelope whose contents can be read is read as those, whatever stands beside it; the
  structured one counts when the other gives nothing.
  */
  lemma NestedEnvelopeIsRead(t: Tools, key: string, inner: Fields, fields: Fields)
    requires key == "review_verdict" || key == "structured_review_verdict"
    requires key == "structured_review_verdict" ==> FromEnvelope(t, fields, "review_verdict").None?
    requires Get(fields, key) == Some(Record(inner)) && NormalizeRecord(t, inner).Some?
    ensures FromObject(t, Record(fields)) == NormalizeRecord(t, inner) && IsNormal(NormalizeRecord(t, inner).value)
  {
    NormalizeRecordIsNormal(t, inner);
  }

  /** A flat envelope that holds no more than the label takes the texts from the fields beside it. */
  lemma FlatEnvelopeKeepsSiblings(t: Tools, word: string, rest: Fields)
    requires LabelOf(t, Trim(word)).Some? && word != ""
    ensures var v := FromObject(t, Record(Field("review_verdict", Str(word), rest)));
      v == Some(Verdict(LabelOf(t, Trim(word)).value, TextOf(Get(rest, "summary")),
                        Some(ItemsOf(Get(rest, "blocking_issues"))), Some(ItemsOf(Get(rest, "followups")))))
  {
    var fields := Field("review_verdict", Str(word), rest);
    assert Put(fields, "review_verdict", Str(word)) == fields;
    FirstKeyDecides(fields, Str(word));
    assert |"review_verdict"| == 14 && |"summary"| == 7 && |"blocking_issues"| == 15 && |"followups"| == 9;
    assert Get(fields, "summary") == Get(rest, "summary");
    assert Get(fields, "blocking_issues") == Get(rest, "blocking_issues");
    assert Get(fields, "followups") == Get(rest, "followups");
  }

  lemma FirstKeyDecides(fields: Fields, v: Json)
    requires Get(fields, "review_verdict") == Some(v) && Truthy(v)
    ensures FirstTruthy(fields, DECISION_KEYS) == Some(v)
  {
    assert DECISION_KEYS[0] == "review_verdict";
  }
}
