/**
Dynamically typed values as the modelled code handles them: what `json.loads` returns, or the
payload of a stored row.  A record keeps its fields in insertion order, as a Python dict does.
*/
module Json {
  import opened Wrappers

  datatype Json =
    | Null
    | Bool(b: bool)
    | Int(n: int)
    | Float(x: real)
    | Str(s: string)
    | List(items: seq<Json>)
    | Record(fields: Fields)

  datatype Fields = End | Field(key: string, value: Json, rest: Fields)

  /** Python's truth value. */
  predicate Truthy(v: Json) {
    match v
    case Null => false
    case Bool(b) => b
    case Int(n) => n != 0
    case Float(x) => x != 0.0
    case Str(s) => s != ""
    case List(items) => items != []
    case Record(fields) => fields != End
  }

  /** `fields.get(key)` */
  function Get(fields: Fields, key: string): Option<Json> {
    match fields
    case End => None
    case Field(k, v, rest) => if k == key then Some(v) else Get(rest, key)
  }

  /** `fields.get(key, default)` */
  function GetOr(fields: Fields, key: string, default: Json): Json {
    var found := Get(fields, key);
    if found.Some? then found.value else default
  }

  /** `fields[key] = value`: in place, or at the end. */
  function Put(fields: Fields, key: string, value: Json): Fields {
    match fields
    case End => Field(key, value, End)
    case Field(k, v, rest) => if k == key then Field(k, value, rest) else Field(k, v, Put(rest, key, value))
  }

  /** `fields.pop(key)` */
  function Remove(fields: Fields, key: string): Fields {
    match fields
    case End => End
    case Field(k, v, rest) => if k == key then rest else Field(k, v, Remove(rest, key))
  }

  // --- equality ---

  predicate IsNumber(v: Json) {
    v.Int? || v.Float? || v.Bool?
  }

  function NumberOf(v: Json): real
    requires IsNumber(v)
  {
    match v
    case Bool(b) => if b then 1.0 else 0.0
    case Int(n) => n as real
    case Float(x) => x
  }

  function Size(fields: Fields): nat {
    match fields
    case End => 0
    case Field(_, _, rest) => 1 + Size(rest)
  }

  /** `a == b`: numbers by value, lists item by item, dicts whatever the order of their keys. */
  predicate AreEqual(a: Json, b: Json)
    decreases a
  {
    if IsNumber(a) && IsNumber(b) then NumberOf(a) == NumberOf(b)
    else if a.List? && b.List? then
      |a.items| == |b.items| && forall i | 0 <= i < |a.items| :: AreEqual(a.items[i], b.items[i])
    else if a.Record? && b.Record? then Size(a.fields) == Size(b.fields) && AreWithin(a.fields, b.fields)
    else a == b
  }

  /** Each field of `a` is in `b`, with an equal value. */
  predicate AreWithin(a: Fields, b: Fields)
    decreases a
  {
    match a
    case End => true
    case Field(key, value, rest) =>
      var found := Get(b, key);
      found.Some? && AreEqual(value, found.value) && AreWithin(rest, b)
  }

  /** `x in items`, which also finds the object itself. */
  predicate IsAmong(x: Json, items: seq<Json>) {
    exists i | 0 <= i < |items| :: items[i] == x || AreEqual(items[i], x)
  }

  lemma {:induction false} GetAfterPut(fields: Fields, key: string, value: Json, other: string)
    ensures Get(Put(fields, key, value), other) == if other == key then Some(value) else Get(fields, other)
  {
    match fields
    case End =>
    case Field(_, _, rest) => GetAfterPut(rest, key, value, other);
  }
}
