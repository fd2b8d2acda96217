/**
What a legacy `tool_output` part carries, and which canonical parts it may be the duplicate of, field by
field.
*/
module SessionPartReading {
  import opened Wrappers
  import opened Json
  import opened SessionParts

  /** What a stored value stands for: JSON text for what it decodes to, anything else for itself. */
  ghost predicate StandsFor(lib: Library, raw: Json, output: Json) {
    match raw
    case Str(s) => output == (match lib.loads(s) case Some(decoded) => decoded case None => raw)
    case _ => output == raw
  }

  /**
  The output is what stands under `output`, even when that is empty; only when the key is missing is it
  what stands under `text`, and only when both are missing what stands under `result`.  A part with none
  of them carries the empty text.
  */
  lemma OutputIsFirstPresent(lib: Library, payload: Fields)
    ensures match (Get(payload, "output"), Get(payload, "text"), Get(payload, "result"))
            case (Some(v), _, _) => StandsFor(lib, v, Output(lib, payload))
            case (None, Some(v), _) => StandsFor(lib, v, Output(lib, payload))
            case (None, None, Some(v)) => StandsFor(lib, v, Output(lib, payload))
            case (None, None, None) => StandsFor(lib, Str(""), Output(lib, payload))
  {
  }

  /** The text of a field; one that is missing, null, zero or empty has none. */
  ghost predicate HasText(lib: Library, payload: Fields, key: string, text: string) {
    match Get(payload, key)
    case None => text == ""
    case Some(Str(s)) => text == s
    case Some(v) => text == if Truthy(v) then lib.show(v) else ""
  }

  lemma TextIsExact(lib: Library, payload: Fields, key: string, text: string)
    ensures HasText(lib, payload, key, text) <==> text == TextField(lib, payload, key)
  {
  }

  /** Both parts name a tool, and not the same one. */
  ghost predicate OtherTool(legacy: Fields, canonical: Fields) {
    match (Get(legacy, "tool_name"), Get(canonical, "tool_name"))
    case (Some(given), Some(known)) => Truthy(given) && Truthy(known) && !AreEqual(given, known)
    case _ => false
  }

  /** The canonical result is the given value; a part without one has the empty text. */
  ghost predicate HasResult(canonical: Fields, value: Json) {
    match Get(canonical, "result")
    case Some(known) => AreEqual(known, value)
    case None => AreEqual(Str(""), value)
  }

  /** The canonical result is the output, or what the envelope in the output holds. */
  ghost predicate SameContent(canonical: Fields, output: Json) {
    || HasResult(canonical, output)
    || (output.Record? && Get(output.fields, "result").Some? && HasResult(canonical, Get(output.fields, "result").value))
  }

  /**
  Two parts of one call are accepted whatever they contain, and parts of different calls never; when an
  id is missing, the contents decide.  Two names of different tools rule a pair out in either case.
  */
  lemma AcceptanceIsExact(lib: Library, legacy: Fields, canonical: Fields, oldId: string, newId: string)
    requires HasText(lib, legacy, "tool_call_id", oldId) && HasText(lib, canonical, "tool_call_id", newId)
    ensures Accepts(lib, legacy, canonical) <==>
            && !OtherTool(legacy, canonical)
            && if oldId != "" && newId != "" then oldId == newId else SameContent(canonical, Output(lib, legacy))
  {
    TextIsExact(lib, legacy, "tool_call_id", oldId);
    TextIsExact(lib, canonical, "tool_call_id", newId);
  }

  /** A call id that both parts carry decides alone: the result of that call is accepted and no other. */
  lemma CallIdsDecide(lib: Library, legacy: Fields, canonical: Fields, oldId: string, newId: string)
    requires Get(legacy, "tool_call_id") == Some(Str(oldId)) && Get(canonical, "tool_call_id") == Some(Str(newId))
    requires oldId != "" && newId != "" && !OtherTool(legacy, canonical)
    ensures Accepts(lib, legacy, canonical) <==> oldId == newId
  {
    AcceptanceIsExact(lib, legacy, canonical, oldId, newId);
  }
}
