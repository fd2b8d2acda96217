/** When migrating evolution records conserves the counters, over all employees and any sequence of aliases. */
module EvolutionTheorems {
  import opened Wrappers
  import opened Json
  import opened EvolutionMerge
  import EmployeeRecords

  // --- what becomes of one key ---

  /** No key occurs twice, as in a dict. */
  predicate HasUniqueKeys(fields: Fields) {
    match fields
    case End => true
    case Field(key, _, rest) => Get(rest, key).None? && HasUniqueKeys(rest)
  }

  /** A key that the incoming record does not have keeps its value. */
  lemma {:induction false} OtherKeysAreKept(env: Env, merged: Fields, incoming: Fields, key: string)
    requires MergeFields(env, merged, incoming).Some? && Get(incoming, key).None?
    ensures Get(MergeFields(env, merged, incoming).value, key) == Get(merged, key)
    decreases incoming
  {
    match incoming
    case End =>
    case Field(k, value, rest) =>
      var next := MergeItem(env, k, Get(merged, k), value).value;
      GetAfterPut(merged, k, next, key);
      OtherKeysAreKept(env, Put(merged, k, next), rest, key);
  }

  /** Every other key has what the two values of that key make, whatever the other keys are. */
  lemma {:induction false} ItemsAreMerged(env: Env, merged: Fields, incoming: Fields, key: string)
    requires MergeFields(env, merged, incoming).Some? && HasUniqueKeys(incoming) && Get(incoming, key).Some?
    ensures Get(MergeFields(env, merged, incoming).value, key) ==
            MergeItem(env, key, Get(merged, key), Get(incoming, key).value)
    decreases incoming
  {
    match incoming
    case End =>
    case Field(k, value, rest) =>
      var next := MergeItem(env, k, Get(merged, k), value).value;
      GetAfterPut(merged, k, next, key);
      if k == key {
        OtherKeysAreKept(env, Put(merged, k, next), rest, key);
      } else {
        ItemsAreMerged(env, Put(merged, k, next), rest, key);
      }
  }

  /** What the values of a key make raises. */
  predicate ItemRaises(env: Env, merged: Fields, incoming: Fields, key: string) {
    Get(incoming, key).Some? && MergeItem(env, key, Get(merged, key), Get(incoming, key).value).None?
  }

  lemma RaisesAlike(env: Env, merged: Fields, k: string, next: Json, value: Json, rest: Fields, key: string)
    requires Get(rest, k).None? && MergeItem(env, k, Get(merged, k), value).Some?
    ensures ItemRaises(env, Put(merged, k, next), rest, key) <==> ItemRaises(env, merged, Field(k, value, rest), key)
  {
    GetAfterPut(merged, k, next, key);
  }

  /** Merging two records raises exactly when some key of the incoming one does. */
  lemma {:induction false} MergingRaises(env: Env, merged: Fields, incoming: Fields)
    requires HasUniqueKeys(incoming)
    ensures MergeFields(env, merged, incoming).None? <==> exists key :: ItemRaises(env, merged, incoming, key)
    decreases incoming
  {
    match incoming
    case End =>
    case Field(k, value, rest) =>
      var next := MergeItem(env, k, Get(merged, k), value);
      if next.None? {
        assert ItemRaises(env, merged, incoming, k);
      } else {
        MergingRaises(env, Put(merged, k, next.value), rest);
        forall key
          ensures ItemRaises(env, Put(merged, k, next.value), rest, key) <==> ItemRaises(env, merged, incoming, key)
        {
          RaisesAlike(env, merged, k, next.value, value, rest, key);
        }
      }
  }

  /** What is there stays in front; the rest are incoming items, and each incoming item is in, or one equal to it. */
  lemma {:induction false} AppendedUnites(items: seq<Json>, additions: seq<Json>)
    ensures items <= Appended(items, additions)
    ensures forall x | x in Appended(items, additions)[|items|..] :: x in additions
    ensures forall x | x in additions :: IsAmong(x, Appended(items, additions))
    decreases |additions|
  {
    if additions != [] {
      var next := if IsAmong(additions[0], items) then items else items + [additions[0]];
      var result := Appended(items, additions);
      AppendedUnites(next, additions[1..]);
      assert IsAmong(additions[0], next) by {
        if next != items { assert next[|items|] == additions[0]; }
      }
      StaysAmong(additions[0], next, result);
      forall x | x in result[|items|..] ensures x in additions {
        var k :| |items| <= k < |result| && result[k] == x;
        if k >= |next| { assert result[k] in result[|next|..]; }
      }
    }
  }

  lemma StaysAmong(x: Json, items: seq<Json>, more: seq<Json>)
    requires IsAmong(x, items) && items <= more
    ensures IsAmong(x, more)
  {
    var i :| 0 <= i < |items| && (items[i] == x || AreEqual(items[i], x));
    assert more[i] == items[i];
  }

  /** Two lists are united; a text that is there already is not overwritten; two integer counts are added. */
  lemma ItemOutcomes(env: Env, key: string, present: Json, value: Json, x: Json)
    ensures present.List? && value.List? ==>
      var merged := MergeItem(env, key, Some(present), value);
      && merged.Some? && merged.value.List? && present.items <= merged.value.items
      && (x in merged.value.items ==> x in present.items || x in value.items)
      && (x in value.items ==> IsAmong(x, merged.value.items))
    ensures present.Str? && present.s != "" && value.Str? ==> MergeItem(env, key, Some(present), value) == Some(present)
    ensures key in env.counters && present.Int? && value.Int? ==>
      MergeItem(env, key, Some(present), value) == Some(Int(present.n + value.n))
  {
    if present.List? && value.List? {
      AppendedUnites(present.items, value.items);
      AppendedUnites([], value.items);
    }
  }

  /** The loop that appends: one more item goes to the end unless it, or one equal to it, is there. */
  lemma {:induction false} AppendingOneMore(items: seq<Json>, additions: seq<Json>, x: Json)
    ensures var before := Appended(items, additions);
      Appended(items, additions + [x]) == if IsAmong(x, before) then before else before + [x]
    decreases |additions|
  {
    var longer := additions + [x];
    if additions == [] {
      assert longer == [x] && longer[1..] == [];
    } else {
      var next := if IsAmong(additions[0], items) then items else items + [additions[0]];
      assert longer[0] == additions[0] && longer[1..] == additions[1..] + [x];
      AppendingOneMore(next, additions[1..], x);
    }
  }

  /** Nothing is there: the key is missing, or its value is null, an empty text, list or record. */
  predicate IsMissing(present: Option<Json>) {
    present.None? || present.value in {Null, Str(""), List([]), Record(End)}
  }

  /** A number without its fraction. */
  ghost predicate IsWhole(v: Json, n: int) {
    match v
    case Int(i) => n == i
    case Bool(b) => n == if b then 1 else 0
    case Float(x) => n as real == x || (if x > 0.0 then 0.0 < x - n as real < 1.0 && n >= 0
                                        else 0.0 < n as real - x < 1.0 && n <= 0)
    case _ => false
  }

  lemma WholeIsExact(v: Json)
    requires IsNumber(v)
    ensures IsWhole(v, IntOf(v))
  {
  }

  /** What a count starts from: a number, or a text that is one; anything filled that is not a number raises. */
  ghost predicate StartsAt(env: Env, present: Option<Json>, start: Option<int>) {
    match present
    case None => start == Some(0)
    case Some(v) =>
      if !Truthy(v) then start == Some(0)
      else if IsNumber(v) then start.Some? && IsWhole(v, start.value)
      else if v.Str? then start == env.parse(v.s)
      else start == None
  }

  /** A number under a counter key is added to what is there, and raises when that is no number. */
  lemma CountsAreAdded(env: Env, key: string, present: Option<Json>, value: Json) returns (start: Option<int>, more: int)
    requires key in env.counters && IsNumber(value)
    ensures StartsAt(env, present, start) && IsWhole(value, more)
    ensures MergeItem(env, key, present, value) == if start.None? then None else Some(Int(start.value + more))
  {
    start, more := ToInt(env, OrNull(present)), IntOf(value);
    WholeIsExact(value);
    if present.Some? && IsNumber(present.value) { WholeIsExact(present.value); }
  }

  /**
  A list is appended to a list, to the characters of a text or to the keys of a record, and to nothing
  when nothing filled is there; a filled value of another kind raises.
  */
  lemma ListsAreAppended(env: Env, key: string, present: Option<Json>, items: seq<Json>)
    ensures var merged := MergeItem(env, key, present, List(items));
      if present.None? || !Truthy(present.value) then merged == Some(List(Appended([], items)))
      else match present.value
      case List(have) => merged == Some(List(Appended(have, items)))
      case Str(s) =>
        merged == Some(List(Appended(seq(|s|, i requires 0 <= i < |s| => Str([s[i]])), items)))
      case Record(fields) => merged == Some(List(Appended(Keys(fields), items)))
      case _ => merged == None
  {
  }

  /** Records are merged into records; elsewhere a record, and every other value, only fills what is missing. */
  lemma OthersFillGaps(env: Env, key: string, present: Option<Json>, value: Json)
    requires !value.List? && !(key in env.counters && IsNumber(value))
    ensures var merged := MergeItem(env, key, present, value);
      if value.Record? && present.None? then
        merged == match MergeFields(env, End, value.fields) case None => None case Some(fields) => Some(Record(fields))
      else if value.Record? && present.value.Record? then
        merged == match MergeFields(env, present.value.fields, value.fields)
                  case None => None
                  case Some(fields) => Some(Record(fields))
      else merged == if IsMissing(present) then Some(value) else present
  {
  }

  /** Two records that meet are merged key by key, two lists united; otherwise the one there stays if it is filled. */
  lemma RecordsMeet(env: Env, base: Json, incoming: Json)
    ensures Merge(env, base, incoming) ==
            if base.Record? && incoming.Record? then
              match MergeFields(env, base.fields, incoming.fields)
              case None => None
              case Some(fields) => Some(Record(fields))
            else if base.List? && incoming.List? then Some(List(Appended(base.items, incoming.items)))
            else Some(if IsMissing(Some(base)) then incoming else base)
  {
  }

  // --- exact accounting over a run ---

  lemma {:induction false} GrandTotalAfterPut(c: string, employees: Fields, id: string, v: Json)
    ensures GrandTotal(c, Put(employees, id, v)) ==
            GrandTotal(c, employees) - TotalOf(c, OrNull(Get(employees, id))) + TotalOf(c, v)
  {
    match employees
    case End =>
    case Field(_, _, rest) => GrandTotalAfterPut(c, rest, id, v);
  }

  lemma {:induction false} GrandTotalAfterRemove(c: string, employees: Fields, id: string)
    ensures GrandTotal(c, Remove(employees, id)) == GrandTotal(c, employees) - TotalOf(c, OrNull(Get(employees, id)))
  {
    match employees
    case End =>
    case Field(_, _, rest) => GrandTotalAfterRemove(c, rest, id);
  }

  /** What the alias's record would be merged into. */
  function Target(employees: Fields, alias: Alias): Json {
    OrNull(Get(Remove(employees, alias.legacy), alias.canonical))
  }

  function MoveLoss(env: Env, c: string, employees: Fields, alias: Alias): int {
    var legacy := Get(employees, alias.legacy);
    if legacy.None? then 0 else Loss(env, c, Target(employees, alias), legacy.value)
  }

  function RunLoss(env: Env, c: string, employees: Fields, aliases: seq<Alias>): int
    requires Migrated(env, employees, aliases).Some?
  {
    if aliases == [] then 0
    else
      var init := aliases[..|aliases| - 1];
      RunLoss(env, c, employees, init) +
      MoveLoss(env, c, Migrated(env, employees, init).value, aliases[|aliases| - 1])
  }

  lemma MoveAccounts(env: Env, c: string, employees: Fields, alias: Alias)
    requires c in env.counters && Move(env, employees, alias).Some?
    ensures GrandTotal(c, Move(env, employees, alias).value) ==
            GrandTotal(c, employees) - MoveLoss(env, c, employees, alias)
  {
    var legacy := Get(employees, alias.legacy);
    if legacy.Some? {
      var remaining := Remove(employees, alias.legacy);
      var merged := Merge(env, Target(employees, alias), legacy.value).value;
      GrandTotalAfterRemove(c, employees, alias.legacy);
      GrandTotalAfterPut(c, remaining, alias.canonical, merged);
      MergeAccounts(env, c, Target(employees, alias), legacy.value);
    }
  }

  /** Along any sequence of aliases, chains and absent targets included, the total changes by exactly the loss. */
  lemma {:induction false} MigrationAccounts(env: Env, c: string, employees: Fields, aliases: seq<Alias>)
    requires c in env.counters && Migrated(env, employees, aliases).Some?
    ensures GrandTotal(c, Migrated(env, employees, aliases).value) ==
            GrandTotal(c, employees) - RunLoss(env, c, employees, aliases)
  {
    if aliases != [] {
      var init := aliases[..|aliases| - 1];
      MigrationAccounts(env, c, employees, init);
      MoveAccounts(env, c, Migrated(env, employees, init).value, aliases[|aliases| - 1]);
    }
  }

  // --- counters that count ---

  /** Wherever `c` is a key of a record, its value is no negative number and no text. */
  predicate CountsWell(c: string, v: Json)
    decreases v, 0
  {
    v.Record? ==> FieldsCountWell(c, v.fields)
  }

  predicate FieldsCountWell(c: string, fields: Fields)
    decreases fields, 0
  {
    match fields
    case End => true
    case Field(key, value, rest) => ItemCountsWell(c, key, value) && FieldsCountWell(c, rest)
  }

  predicate ItemCountsWell(c: string, key: string, v: Json)
    decreases v, 1
  {
    && (key == c && IsNumber(v) ==> IntOf(v) >= 0)
    && (key == c && v.Str? ==> v.s == "")
    && CountsWell(c, v)
  }

  lemma {:induction false} FieldsTotalIsNonNegative(c: string, fields: Fields)
    requires FieldsCountWell(c, fields)
    ensures Total(c, fields) >= 0
    decreases fields, 0
  {
    match fields
    case End =>
    case Field(_, value, rest) =>
      TotalIsNonNegative(c, value);
      FieldsTotalIsNonNegative(c, rest);
  }

  lemma {:induction false} TotalIsNonNegative(c: string, v: Json)
    requires CountsWell(c, v)
    ensures TotalOf(c, v) >= 0
    decreases v, 0
  {
    if v.Record? { FieldsTotalIsNonNegative(c, v.fields); }
  }

  lemma {:induction false} GetCountsWell(c: string, fields: Fields, key: string)
    requires FieldsCountWell(c, fields)
    ensures Get(fields, key).Some? ==> ItemCountsWell(c, key, Get(fields, key).value)
  {
    match fields
    case End =>
    case Field(_, _, rest) => GetCountsWell(c, rest, key);
  }

  lemma {:induction false} PutCountsWell(c: string, fields: Fields, key: string, v: Json)
    requires FieldsCountWell(c, fields) && ItemCountsWell(c, key, v)
    ensures FieldsCountWell(c, Put(fields, key, v))
  {
    match fields
    case End =>
    case Field(_, _, rest) => if fields.key != key { PutCountsWell(c, rest, key, v); }
  }

  // --- which merges lose something ---

  /** A record that counts something meets a value that is neither a record nor empty, or a list meets such a record. */
  predicate Loses(env: Env, c: string, base: Json, incoming: Json)
    decreases incoming, 0
  {
    if base.Record? && incoming.Record? then LosesInFields(env, c, base.fields, incoming.fields)
    else !EmployeeRecords.IsEmptyValue(base) && TotalOf(c, incoming) > 0
  }

  predicate LosesInFields(env: Env, c: string, merged: Fields, incoming: Fields)
    decreases incoming, 0
  {
    match incoming
    case End => false
    case Field(key, value, rest) =>
      var next := MergeItem(env, key, Get(merged, key), value);
      || LosesInItem(env, c, key, Get(merged, key), value)
      || (next.Some? && LosesInFields(env, c, Put(merged, key, next.value), rest))
  }

  predicate LosesInItem(env: Env, c: string, key: string, present: Option<Json>, value: Json)
    decreases value, 1
  {
    if key in env.counters && IsNumber(value) then false
    else if value.List? then TotalOf(c, OrNull(present)) > 0
    else if value.Record? then Loses(env, c, if present.Some? then present.value else Record(End), value)
    else false
  }

  /** The loss of a merge whose counters count is never negative, and is nothing unless the merge loses. */
  predicate LossIs(loss: int, loses: bool) {
    loss >= 0 && (loss > 0 <==> loses)
  }

  lemma {:induction false} MergeItemCountsWell(env: Env, c: string, key: string, present: Option<Json>, value: Json)
    requires c in env.counters && MergeItem(env, key, present, value).Some?
    requires (present.Some? ==> ItemCountsWell(c, key, present.value)) && ItemCountsWell(c, key, value)
    ensures ItemCountsWell(c, key, MergeItem(env, key, present, value).value)
    ensures LossIs(LossItem(env, c, key, present, value), LosesInItem(env, c, key, present, value))
    decreases value, 1
  {
    if key in env.counters && IsNumber(value) {
    } else if value.List? {
      TotalIsNonNegative(c, OrNull(present));
    } else if value.Record? {
      MergeCountsWell(env, c, if present.Some? then present.value else Record(End), value);
    }
  }

  lemma {:induction false} MergeFieldsCountsWell(env: Env, c: string, merged: Fields, incoming: Fields)
    requires c in env.counters && MergeFields(env, merged, incoming).Some?
    requires FieldsCountWell(c, merged) && FieldsCountWell(c, incoming)
    ensures FieldsCountWell(c, MergeFields(env, merged, incoming).value)
    ensures LossIs(LossFields(env, c, merged, incoming), LosesInFields(env, c, merged, incoming))
    decreases incoming, 0
  {
    match incoming
    case End =>
    case Field(key, value, rest) =>
      GetCountsWell(c, merged, key);
      MergeItemCountsWell(env, c, key, Get(merged, key), value);
      var next := MergeItem(env, key, Get(merged, key), value).value;
      PutCountsWell(c, merged, key, next);
      MergeFieldsCountsWell(env, c, Put(merged, key, next), rest);
  }

  lemma {:induction false} MergeCountsWell(env: Env, c: string, base: Json, incoming: Json)
    requires c in env.counters && Merge(env, base, incoming).Some?
    requires CountsWell(c, base) && CountsWell(c, incoming)
    ensures CountsWell(c, Merge(env, base, incoming).value)
    ensures LossIs(Loss(env, c, base, incoming), Loses(env, c, base, incoming))
    decreases incoming, 0
  {
    if base.Record? && incoming.Record? {
      MergeFieldsCountsWell(env, c, base.fields, incoming.fields);
    } else {
      TotalIsNonNegative(c, incoming);
    }
  }

  // --- whole runs ---

  predicate AllCountWell(c: string, employees: Fields) {
    match employees
    case End => true
    case Field(_, value, rest) => CountsWell(c, value) && AllCountWell(c, rest)
  }

  lemma {:induction false} AllGet(c: string, employees: Fields, id: string)
    requires AllCountWell(c, employees)
    ensures CountsWell(c, OrNull(Get(employees, id)))
  {
    match employees
    case End =>
    case Field(_, _, rest) => AllGet(c, rest, id);
  }

  lemma {:induction false} AllPut(c: string, employees: Fields, id: string, v: Json)
    requires AllCountWell(c, employees) && CountsWell(c, v)
    ensures AllCountWell(c, Put(employees, id, v))
  {
    match employees
    case End =>
    case Field(_, _, rest) => AllPut(c, rest, id, v);
  }

  lemma {:induction false} AllRemove(c: string, employees: Fields, id: string)
    requires AllCountWell(c, employees)
    ensures AllCountWell(c, Remove(employees, id))
  {
    match employees
    case End =>
    case Field(_, _, rest) => AllRemove(c, rest, id);
  }

  predicate MoveLoses(env: Env, c: string, employees: Fields, alias: Alias) {
    var legacy := Get(employees, alias.legacy);
    legacy.Some? && Loses(env, c, Target(employees, alias), legacy.value)
  }

  predicate RunLoses(env: Env, c: string, employees: Fields, aliases: seq<Alias>)
    requires Migrated(env, employees, aliases).Some?
  {
    if aliases == [] then false
    else
      var init := aliases[..|aliases| - 1];
      RunLoses(env, c, employees, init) || MoveLoses(env, c, Migrated(env, employees, init).value, aliases[|aliases| - 1])
  }

  lemma MoveCountsWell(env: Env, c: string, employees: Fields, alias: Alias)
    requires c in env.counters && Move(env, employees, alias).Some? && AllCountWell(c, employees)
    ensures AllCountWell(c, Move(env, employees, alias).value)
    ensures LossIs(MoveLoss(env, c, employees, alias), MoveLoses(env, c, employees, alias))
  {
    var legacy := Get(employees, alias.legacy);
    if legacy.Some? {
      var remaining := Remove(employees, alias.legacy);
      AllGet(c, employees, alias.legacy);
      AllRemove(c, employees, alias.legacy);
      AllGet(c, remaining, alias.canonical);
      MergeCountsWell(env, c, Target(employees, alias), legacy.value);
      AllPut(c, remaining, alias.canonical, Merge(env, Target(employees, alias), legacy.value).value);
    }
  }

  lemma {:induction false} RunCountsWell(env: Env, c: string, employees: Fields, aliases: seq<Alias>)
    requires c in env.counters && Migrated(env, employees, aliases).Some? && AllCountWell(c, employees)
    ensures AllCountWell(c, Migrated(env, employees, aliases).value)
    ensures LossIs(RunLoss(env, c, employees, aliases), RunLoses(env, c, employees, aliases))
  {
    if aliases != [] {
      var init := aliases[..|aliases| - 1];
      RunCountsWell(env, c, employees, init);
      MoveCountsWell(env, c, Migrated(env, employees, init).value, aliases[|aliases| - 1]);
    }
  }

  /**
  A counter whose values count is conserved over all employees exactly when no record that counts
  something meets a value it cannot be merged into.
  */
  lemma ConservedExactlyUnlessLost(env: Env, c: string, employees: Fields, aliases: seq<Alias>)
    requires c in env.counters && Migrated(env, employees, aliases).Some? && AllCountWell(c, employees)
    ensures GrandTotal(c, Migrated(env, employees, aliases).value) == GrandTotal(c, employees) <==>
            !RunLoses(env, c, employees, aliases)
  {
    MigrationAccounts(env, c, employees, aliases);
    RunCountsWell(env, c, employees, aliases);
  }

  /** A nested count that meets a text is lost. */
  lemma NestedCountCanBeLost(env: Env, c: string, key: string, text: string, n: int)
    requires c in env.counters && key !in env.counters && text != "" && n > 0
    ensures var base := Record(Field(key, Str(text), End));
      var incoming := Record(Field(key, Record(Field(c, Int(n), End)), End));
      && Merge(env, base, incoming) == Some(base)
      && TotalOf(c, base) == 0 && TotalOf(c, incoming) == n
  {
    var base, inner := Field(key, Str(text), End), Field(c, Int(n), End);
    var incoming := Field(key, Record(inner), End);
    assert MergeItem(env, key, Some(Str(text)), Record(inner)) == Some(Str(text));
    assert Put(base, key, Str(text)) == base && MergeFields(env, base, End) == Some(base);
    FlatWeight(c, key, Str(text));
    FlatWeight(c, c, Int(n));
    assert Total(c, End) == 0;
    assert Total(c, inner) == n;
    assert Weight(c, key, Record(inner)) == TotalOf(c, Record(inner)) == n;
  }

  // --- records of one layout ---

  /** What the value at a path is: each kind may also be missing, null or the empty string. */
  datatype Kind = Counter | Listing | Nested | Scalar

  type Layout = seq<string> -> Kind

  function KindAt(env: Env, layout: Layout, path: seq<string>): Kind {
    if path != [] && path[|path| - 1] in env.counters then Counter else layout(path)
  }

  predicate IsBlank(v: Json) {
    v == Null || v == Str("")
  }

  predicate Fits(env: Env, layout: Layout, path: seq<string>, v: Json)
    decreases v, 0
  {
    || IsBlank(v)
    || match KindAt(env, layout, path)
       case Counter => IsNumber(v)
       case Listing => v.List?
       case Nested => v.Record? && FieldsFit(env, layout, path, v.fields)
       case Scalar => !v.List? && !v.Record?
  }

  predicate FieldsFit(env: Env, layout: Layout, path: seq<string>, fields: Fields)
    decreases fields, 0
  {
    match fields
    case End => true
    case Field(key, value, rest) => Fits(env, layout, path + [key], value) && FieldsFit(env, layout, path, rest)
  }

  lemma {:induction false} GetFits(env: Env, layout: Layout, path: seq<string>, fields: Fields, key: string)
    requires FieldsFit(env, layout, path, fields)
    ensures Get(fields, key).Some? ==> Fits(env, layout, path + [key], Get(fields, key).value)
  {
    match fields
    case End =>
    case Field(_, _, rest) => GetFits(env, layout, path, rest, key);
  }

  lemma {:induction false} PutFits(env: Env, layout: Layout, path: seq<string>, fields: Fields, key: string, v: Json)
    requires FieldsFit(env, layout, path, fields) && Fits(env, layout, path + [key], v)
    ensures FieldsFit(env, layout, path, Put(fields, key, v))
  {
    match fields
    case End =>
    case Field(_, _, rest) => if fields.key != key { PutFits(env, layout, path, rest, key, v); }
  }

  lemma {:induction false} MergeItemFits(
      env: Env, layout: Layout, path: seq<string>, c: string, key: string, present: Option<Json>, value: Json)
    requires (present.Some? ==> Fits(env, layout, path + [key], present.value)) && Fits(env, layout, path + [key], value)
    ensures var next := MergeItem(env, key, present, value);
      next.Some? && Fits(env, layout, path + [key], next.value) && LossItem(env, c, key, present, value) == 0
    decreases value, 1
  {
    assert (path + [key])[|path + [key]| - 1] == key;
    if value.Record? {
      MergeFits(env, layout, path + [key], c, if present.Some? then present.value else Record(End), value);
    }
  }

  lemma {:induction false} MergeFieldsFit(
      env: Env, layout: Layout, path: seq<string>, c: string, merged: Fields, incoming: Fields)
    requires FieldsFit(env, layout, path, merged) && FieldsFit(env, layout, path, incoming)
    ensures var next := MergeFields(env, merged, incoming);
      next.Some? && FieldsFit(env, layout, path, next.value) && LossFields(env, c, merged, incoming) == 0
    decreases incoming, 0
  {
    match incoming
    case End =>
    case Field(key, value, rest) =>
      GetFits(env, layout, path, merged, key);
      MergeItemFits(env, layout, path, c, key, Get(merged, key), value);
      var next := MergeItem(env, key, Get(merged, key), value).value;
      PutFits(env, layout, path, merged, key, next);
      MergeFieldsFit(env, layout, path, c, Put(merged, key, next), rest);
  }

  /** Two records of one layout merge without raising, into a record of the layout, and nothing is lost. */
  lemma {:induction false} MergeFits(env: Env, layout: Layout, path: seq<string>, c: string, base: Json, incoming: Json)
    requires Fits(env, layout, path, base) || base == Record(End)
    requires KindAt(env, layout, path).Nested? && Fits(env, layout, path, incoming)
    ensures var merged := Merge(env, base, incoming);
      merged.Some? && Fits(env, layout, path, merged.value) && Loss(env, c, base, incoming) == 0
    decreases incoming, 0
  {
    if base.Record? && incoming.Record? {
      MergeFieldsFit(env, layout, path, c, base.fields, incoming.fields);
    }
  }

  predicate AllFit(env: Env, layout: Layout, employees: Fields) {
    match employees
    case End => true
    case Field(_, value, rest) => Fits(env, layout, [], value) && AllFit(env, layout, rest)
  }

  lemma {:induction false} AllFitGet(env: Env, layout: Layout, employees: Fields, id: string)
    requires AllFit(env, layout, employees)
    ensures Fits(env, layout, [], OrNull(Get(employees, id)))
  {
    match employees
    case End =>
    case Field(_, _, rest) => AllFitGet(env, layout, rest, id);
  }

  lemma {:induction false} AllFitPut(env: Env, layout: Layout, employees: Fields, id: string, v: Json)
    requires AllFit(env, layout, employees) && Fits(env, layout, [], v)
    ensures AllFit(env, layout, Put(employees, id, v))
  {
    match employees
    case End =>
    case Field(_, _, rest) => AllFitPut(env, layout, rest, id, v);
  }

  lemma {:induction false} AllFitRemove(env: Env, layout: Layout, employees: Fields, id: string)
    requires AllFit(env, layout, employees)
    ensures AllFit(env, layout, Remove(employees, id))
  {
    match employees
    case End =>
    case Field(_, _, rest) => AllFitRemove(env, layout, rest, id);
  }

  lemma MoveFits(env: Env, layout: Layout, c: string, employees: Fields, alias: Alias)
    requires layout([]).Nested? && AllFit(env, layout, employees)
    ensures Move(env, employees, alias).Some? && AllFit(env, layout, Move(env, employees, alias).value)
    ensures MoveLoss(env, c, employees, alias) == 0
  {
    var legacy := Get(employees, alias.legacy);
    if legacy.Some? {
      var remaining := Remove(employees, alias.legacy);
      AllFitGet(env, layout, employees, alias.legacy);
      AllFitRemove(env, layout, employees, alias.legacy);
      AllFitGet(env, layout, remaining, alias.canonical);
      MergeFits(env, layout, [], c, Target(employees, alias), legacy.value);
      AllFitPut(env, layout, remaining, alias.canonical, Merge(env, Target(employees, alias), legacy.value).value);
    }
  }

  /**
  Records of one layout, whatever it is, never make a migration raise, and it conserves every counter,
  nested ones included, over all employees.
  */
  lemma {:induction false} OneLayoutConserves(env: Env, layout: Layout, c: string, employees: Fields, aliases: seq<Alias>)
    requires c in env.counters && layout([]).Nested? && AllFit(env, layout, employees)
    ensures var after := Migrated(env, employees, aliases);
      && after.Some? && AllFit(env, layout, after.value)
      && GrandTotal(c, after.value) == GrandTotal(c, employees)
  {
    if aliases != [] {
      var init := aliases[..|aliases| - 1];
      OneLayoutConserves(env, layout, c, employees, init);
      MoveFits(env, layout, c, Migrated(env, employees, init).value, aliases[|aliases| - 1]);
      MoveAccounts(env, c, Migrated(env, employees, init).value, aliases[|aliases| - 1]);
    }
  }

  // --- over all profile files ---

  function FileTotal(c: string, file: Stored): int {
    if IsUsable(file) then GrandTotal(c, EmployeesIn(file)) else 0
  }

  function FilesTotal(c: string, files: seq<Stored>): int {
    if files == [] then 0 else FilesTotal(c, files[..|files| - 1]) + FileTotal(c, files[|files| - 1])
  }

  predicate FileLoses(env: Env, c: string, file: Stored, aliases: seq<Alias>)
    requires MigratedFile(env, file, aliases).Some?
  {
    IsUsable(file) && RunLoses(env, c, EmployeesIn(file), aliases)
  }

  predicate FileCountsWell(c: string, file: Stored) {
    IsUsable(file) ==> AllCountWell(c, EmployeesIn(file))
  }

  lemma EmployeesAreReplaced(file: Stored, employees: Fields)
    requires IsUsable(file)
    ensures IsUsable(WithEmployees(file, employees)) && EmployeesIn(WithEmployees(file, employees)) == employees
  {
    GetAfterPut(file.content.fields, "employees", Record(employees), "employees");
  }

  /** A migrated file holds no more than it held, and less exactly when the migration loses something. */
  lemma FileLossIs(env: Env, c: string, file: Stored, aliases: seq<Alias>)
    requires c in env.counters && MigratedFile(env, file, aliases).Some? && FileCountsWell(c, file)
    ensures var after := MigratedFile(env, file, aliases).value;
      LossIs(FileTotal(c, file) - FileTotal(c, after), FileLoses(env, c, file, aliases))
  {
    if IsUsable(file) {
      var employees := EmployeesIn(file);
      EmployeesAreReplaced(file, Migrated(env, employees, aliases).value);
      MigrationAccounts(env, c, employees, aliases);
      RunCountsWell(env, c, employees, aliases);
    }
  }

  /** Totals of two lists of files that differ by non-negative losses. */
  lemma {:induction false} FilesLossIs(c: string, before: seq<Stored>, after: seq<Stored>, loses: seq<bool>)
    requires |before| == |after| == |loses|
    requires forall i | 0 <= i < |before| :: LossIs(FileTotal(c, before[i]) - FileTotal(c, after[i]), loses[i])
    ensures LossIs(FilesTotal(c, before) - FilesTotal(c, after), true in loses)
  {
    if before != [] {
      var n := |before| - 1;
      FilesLossIs(c, before[..n], after[..n], loses[..n]);
      assert loses == loses[..n] + [loses[n]];
    }
  }

  /**
  Over all profile files a counter whose values count is conserved, even when a merge raises halfway, if
  and only if no file that was rewritten has a record that counts something meet a value it cannot be
  merged into.
  */
  lemma ProfilesConserveExactlyUnlessLost(env: Env, c: string, before: seq<Stored>, after: seq<Stored>,
                                          aliases: seq<Alias>)
    requires c in env.counters && AreMigrated(env, before, after, aliases)
    requires forall i | 0 <= i < |before| :: FileCountsWell(c, before[i])
    ensures FilesTotal(c, after) == FilesTotal(c, before) <==>
            forall i | 0 <= i < Done(env, before, aliases) :: !FileLoses(env, c, before[i], aliases)
  {
    var n := Done(env, before, aliases);
    var loses := seq(|before|, i requires 0 <= i < |before| => i < n && FileLoses(env, c, before[i], aliases));
    forall i | 0 <= i < |before|
      ensures LossIs(FileTotal(c, before[i]) - FileTotal(c, after[i]), loses[i])
    {
      if i < n { FileLossIs(env, c, before[i], aliases); }
    }
    FilesLossIs(c, before, after, loses);
    if true in loses {
      var i :| 0 <= i < |loses| && loses[i];
      assert FileLoses(env, c, before[i], aliases);
    } else {
      forall i | 0 <= i < n ensures !FileLoses(env, c, before[i], aliases) {
        assert loses[i] == FileLoses(env, c, before[i], aliases);
      }
    }
  }

  predicate FileFits(env: Env, layout: Layout, file: Stored) {
    IsUsable(file) ==> AllFit(env, layout, EmployeesIn(file))
  }

  lemma FileOfOneLayout(env: Env, layout: Layout, c: string, file: Stored, aliases: seq<Alias>)
    requires c in env.counters && layout([]).Nested? && FileFits(env, layout, file)
    ensures var after := MigratedFile(env, file, aliases);
      after.Some? && LossIs(FileTotal(c, file) - FileTotal(c, after.value), false)
  {
    if IsUsable(file) {
      OneLayoutConserves(env, layout, c, EmployeesIn(file), aliases);
      EmployeesAreReplaced(file, Migrated(env, EmployeesIn(file), aliases).value);
    }
  }

  /** When the records of all files are of one layout, every file is migrated and every counter is conserved. */
  lemma ProfilesOfOneLayoutConserve(env: Env, layout: Layout, c: string, before: seq<Stored>, after: seq<Stored>,
                                    aliases: seq<Alias>)
    requires c in env.counters && AreMigrated(env, before, after, aliases)
    requires layout([]).Nested? && forall i | 0 <= i < |before| :: FileFits(env, layout, before[i])
    ensures Done(env, before, aliases) == |before| && FilesTotal(c, after) == FilesTotal(c, before)
  {
    var n := Done(env, before, aliases);
    if n < |before| { FileOfOneLayout(env, layout, c, before[n], aliases); }
    forall i | 0 <= i < |before| ensures LossIs(FileTotal(c, before[i]) - FileTotal(c, after[i]), false) {
      FileOfOneLayout(env, layout, c, before[i], aliases);
    }
    FilesLossIs(c, before, after, seq(|before|, _ => false));
  }
}
