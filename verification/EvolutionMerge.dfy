/**
Moving evolution records from alias ids to canonical ids, and what happens to the counters in them.
*/
module EvolutionMerge {
  import opened Wrappers
  import opened Json
  import opened Text
  import EmployeeRecords

  /** The counter keys (nothing depends on which they are), and `int` on a string. */
  datatype Env = Env(counters: set<string>, parse: string -> Option<int>)

  // --- merging ---

  function Truncate(x: real): int {
    if x >= 0.0 then x.Floor else -((-x).Floor)
  }

  /** `int` on a number. */
  function IntOf(v: Json): int
    requires IsNumber(v)
  {
    match v
    case Int(n) => n
    case Float(x) => Truncate(x)
    case Bool(b) => if b then 1 else 0
  }

  /** `int(value or 0)`; None when `int` raises. */
  function ToInt(env: Env, v: Json): Option<int> {
    if !Truthy(v) then Some(0)
    else if IsNumber(v) then Some(IntOf(v))
    else if v.Str? then env.parse(v.s)
    else None
  }

  function Keys(fields: Fields): seq<Json> {
    match fields
    case End => []
    case Field(key, _, rest) => [Str(key)] + Keys(rest)
  }

  /** `list(value or [])`; None when `list` raises. */
  function ToList(v: Json): Option<seq<Json>> {
    if !Truthy(v) then Some([])
    else
      match v
      case List(items) => Some(items)
      case Str(s) => Some(seq(|s|, i requires 0 <= i < |s| => Str([s[i]])))
      case Record(fields) => Some(Keys(fields))
      case _ => None
  }

  /** `_append_unique` */
  function Appended(items: seq<Json>, additions: seq<Json>): seq<Json>
    decreases |additions|
  {
    if additions == [] then items
    else Appended(if IsAmong(additions[0], items) then items else items + [additions[0]], additions[1..])
  }

  function OrNull(v: Option<Json>): Json {
    if v.Some? then v.value else Null
  }

  /** `_merge_evolution_records`; None when it raises. */
  function Merge(env: Env, base: Json, incoming: Json): Option<Json>
    decreases incoming, 0
  {
    if base.Record? && incoming.Record? then
      var merged := MergeFields(env, base.fields, incoming.fields);
      if merged.None? then None else Some(Record(merged.value))
    else if base.List? && incoming.List? then Some(List(Appended(base.items, incoming.items)))
    else Some(if EmployeeRecords.IsEmptyValue(base) then incoming else base)
  }

  /** The loop over the incoming items. */
  function MergeFields(env: Env, merged: Fields, incoming: Fields): Option<Fields>
    decreases incoming, 0
  {
    match incoming
    case End => Some(merged)
    case Field(key, value, rest) =>
      var next := MergeItem(env, key, Get(merged, key), value);
      if next.None? then None else MergeFields(env, Put(merged, key, next.value), rest)
  }

  /** The value of `key` after the incoming `value` has been merged into what was there. */
  function MergeItem(env: Env, key: string, present: Option<Json>, value: Json): Option<Json>
    decreases value, 1
  {
    if key in env.counters && IsNumber(value) then
      var have := ToInt(env, OrNull(present));
      if have.None? then None else Some(Int(have.value + IntOf(value)))
    else if value.List? then
      var have := ToList(OrNull(present));
      if have.None? then None else Some(List(Appended(have.value, value.items)))
    else if value.Record? then Merge(env, if present.Some? then present.value else Record(End), value)
    else if present.None? || EmployeeRecords.IsEmptyValue(present.value) then Some(value)
    else present
  }

  // --- migrating ---

  datatype Alias = Alias(legacy: string, canonical: string)

  /** One alias: its record, if there is one, is merged into the canonical one. */
  function Move(env: Env, employees: Fields, alias: Alias): Option<Fields> {
    var legacy := Get(employees, alias.legacy);
    if legacy.None? then Some(employees)
    else
      var remaining := Remove(employees, alias.legacy);
      var merged := Merge(env, OrNull(Get(remaining, alias.canonical)), legacy.value);
      if merged.None? then None else Some(Put(remaining, alias.canonical, merged.value))
  }

  function Migrated(env: Env, employees: Fields, aliases: seq<Alias>): Option<Fields> {
    if aliases == [] then Some(employees)
    else
      var earlier := Migrated(env, employees, aliases[..|aliases| - 1]);
      if earlier.None? then None else Move(env, earlier.value, aliases[|aliases| - 1])
  }

  /** The loop over the aliases on the employees of one file; `changed` says that some record moved. */
  method MoveAll(env: Env, employees: Fields, aliases: seq<Alias>) returns (result: Option<Fields>, changed: bool)
    ensures result == Migrated(env, employees, aliases)
    ensures !changed ==> result == Some(employees)
  {
    var current := employees;
    changed := false;
    for i := 0 to |aliases|
      invariant Migrated(env, employees, aliases[..i]) == Some(current)
      invariant !changed ==> current == employees
    {
      assert aliases[..i + 1][..i] == aliases[..i];
      var alias := aliases[i];
      var legacy := Get(current, alias.legacy);
      if legacy.Some? {
        changed := true;
        var remaining := Remove(current, alias.legacy);
        var merged := Merge(env, OrNull(Get(remaining, alias.canonical)), legacy.value);
        if merged.None? {
          RaisingIsFinal(env, employees, aliases, i + 1);
          return None, true;
        }
        current := Put(remaining, alias.canonical, merged.value);
      }
    }
    assert aliases[..|aliases|] == aliases;
    return Some(current), changed;
  }

  lemma {:induction false} RaisingIsFinal(env: Env, employees: Fields, aliases: seq<Alias>, n: nat)
    requires n <= |aliases| && Migrated(env, employees, aliases[..n]).None?
    ensures Migrated(env, employees, aliases).None?
    decreases |aliases|
  {
    if n < |aliases| {
      var init := aliases[..|aliases| - 1];
      assert init[..n] == aliases[..n];
      RaisingIsFinal(env, employees, init, n);
    } else {
      assert aliases[..n] == aliases;
    }
  }

  // --- the profile files ---

  /** One place where a profile may be stored: what `json.loads` makes of its text, if it makes anything. */
  datatype Stored = Missing | Unreadable | Profile(content: Json)

  predicate IsUsable(file: Stored) {
    file.Profile? && file.content.Record? && Get(file.content.fields, "employees").Some?
    && Get(file.content.fields, "employees").value.Record?
  }

  function EmployeesIn(file: Stored): Fields
    requires IsUsable(file)
  {
    Get(file.content.fields, "employees").value.fields
  }

  function WithEmployees(file: Stored, employees: Fields): Stored
    requires IsUsable(file)
  {
    Profile(Record(Put(file.content.fields, "employees", Record(employees))))
  }

  /** One file: what is no usable profile stays as it is; None when a merge raises. */
  function MigratedFile(env: Env, file: Stored, aliases: seq<Alias>): Option<Stored> {
    if !IsUsable(file) then Some(file)
    else
      var after := Migrated(env, EmployeesIn(file), aliases);
      if after.None? then None else Some(WithEmployees(file, after.value))
  }

  /** How many files are migrated before a merge raises. */
  function Done(env: Env, files: seq<Stored>, aliases: seq<Alias>): (n: nat)
    ensures n <= |files|
    ensures forall i | 0 <= i < n :: MigratedFile(env, files[i], aliases).Some?
    ensures n < |files| ==> MigratedFile(env, files[n], aliases).None?
  {
    if files == [] then 0
    else
      var before := files[..|files| - 1];
      var n := Done(env, before, aliases);
      if n == |before| && MigratedFile(env, files[|files| - 1], aliases).Some? then n + 1 else n
  }

  /** The files up to the first where a merge raises are rewritten, and no others. */
  ghost predicate AreMigrated(env: Env, before: seq<Stored>, after: seq<Stored>, aliases: seq<Alias>) {
    var n := Done(env, before, aliases);
    && |after| == |before|
    && (forall i | 0 <= i < n :: after[i] == MigratedFile(env, before[i], aliases).value)
    && (forall i | n <= i < |before| :: after[i] == before[i])
  }

  /** The aliases that lead somewhere: stripped, both ids filled and different, the last one of a key in its place. */
  function Leading(aliases: seq<Alias>): seq<Alias> {
    if aliases == [] then []
    else
      var last := aliases[|aliases| - 1];
      var legacy, canonical := Trim(last.legacy), Trim(last.canonical);
      var before := Leading(aliases[..|aliases| - 1]);
      if legacy == "" || canonical == "" || legacy == canonical then before
      else SetAlias(before, Alias(legacy, canonical))
  }

  function SetAlias(aliases: seq<Alias>, alias: Alias): seq<Alias> {
    if aliases == [] then [alias]
    else if aliases[0].legacy == alias.legacy then [alias] + aliases[1..]
    else [aliases[0]] + SetAlias(aliases[1..], alias)
  }

  lemma {:induction false} PutSame(fields: Fields, key: string, value: Json)
    requires Get(fields, key) == Some(value)
    ensures Put(fields, key, value) == fields
  {
    match fields
    case Field(k, _, rest) => if k != key { PutSame(rest, key, value); }
  }

  /** The files that hold evolution profiles, in the order they are visited. */
  class EvolutionProfiles {
    var files: seq<Stored>

    constructor (found: seq<Stored>)
      ensures files == found
    {
      files := found;
    }

    /** One turn of the loop over the files. */
    method MigrateProfile(env: Env, index: nat, aliases: seq<Alias>) returns (raised: bool)
      requires index < |files|
      modifies this
      ensures raised <==> MigratedFile(env, old(files)[index], aliases).None?
      ensures files == if raised then old(files)
                       else old(files)[index := MigratedFile(env, old(files)[index], aliases).value]
    {
      var file := files[index];
      if !IsUsable(file) {
        return false;
      }
      var employees, changed := MoveAll(env, EmployeesIn(file), aliases);
      if employees.None? {
        return true;
      }
      if changed {
        files := files[index := WithEmployees(file, employees.value)];
      } else {
        PutSame(file.content.fields, "employees", Record(employees.value));
      }
      return false;
    }

    /** `migrate_evolution_employee_ids`: the files before the one where a merge raises stay rewritten. */
    method MigrateEvolutionEmployeeIds(env: Env, aliases: seq<Alias>) returns (raised: bool)
      modifies this
      ensures AreMigrated(env, old(files), files, Leading(aliases))
      ensures raised == (Done(env, old(files), Leading(aliases)) < |old(files)|)
    {
      var leading := LeadingAliases(aliases);
      ghost var before := files;
      if leading == [] {
        NoAliases(env, before);
        return false;
      }
      var i := 0;
      while i < |files|
        invariant i <= |files|
        invariant AreMigratedUpTo(env, before, files, leading, i)
      {
        raised := MigrateProfile(env, i, leading);
        if raised {
          MigrationStops(env, before, files, leading, i);
          return;
        }
        MigrationGoesOn(env, before, files[i := before[i]], files, leading, i);
        i := i + 1;
      }
      assert before[..i] == before;
      return false;
    }
  }

  /** As far as the loop over the files has come after `n` turns. */
  ghost predicate AreMigratedUpTo(env: Env, before: seq<Stored>, now: seq<Stored>, aliases: seq<Alias>, n: nat) {
    && n <= |before| == |now|
    && Done(env, before[..n], aliases) == n
    && (forall i | 0 <= i < n ::
          && MigratedFile(env, before[i], aliases).Some?
          && now[i] == MigratedFile(env, before[i], aliases).value)
    && (forall i | n <= i < |before| :: now[i] == before[i])
  }

  lemma MigrationGoesOn(env: Env, before: seq<Stored>, now: seq<Stored>, next: seq<Stored>, aliases: seq<Alias>, n: nat)
    requires n < |before| && AreMigratedUpTo(env, before, now, aliases, n)
    requires MigratedFile(env, before[n], aliases).Some?
    requires next == now[n := MigratedFile(env, before[n], aliases).value]
    ensures AreMigratedUpTo(env, before, next, aliases, n + 1)
  {
    assert before[..n + 1][..n] == before[..n];
  }

  lemma MigrationStops(env: Env, before: seq<Stored>, now: seq<Stored>, aliases: seq<Alias>, n: nat)
    requires n < |before| && AreMigratedUpTo(env, before, now, aliases, n)
    requires MigratedFile(env, before[n], aliases).None?
    ensures AreMigrated(env, before, now, aliases) && Done(env, before, aliases) == n
  {
    DoneStops(env, before, aliases, n);
  }

  /** `canonical_aliases` */
  method LeadingAliases(aliases: seq<Alias>) returns (leading: seq<Alias>)
    ensures leading == Leading(aliases)
  {
    leading := [];
    for i := 0 to |aliases|
      invariant leading == Leading(aliases[..i])
    {
      assert aliases[..i + 1][..i] == aliases[..i];
      var legacy, canonical := Trim(aliases[i].legacy), Trim(aliases[i].canonical);
      if legacy != "" && canonical != "" && legacy != canonical {
        leading := SetAlias(leading, Alias(legacy, canonical));
      }
    }
    assert aliases[..|aliases|] == aliases;
  }

  lemma {:induction false} NoAliases(env: Env, files: seq<Stored>)
    ensures Done(env, files, []) == |files|
    ensures forall i | 0 <= i < |files| :: MigratedFile(env, files[i], []) == Some(files[i])
  {
    if files != [] {
      var last := files[|files| - 1];
      NoAliases(env, files[..|files| - 1]);
      if IsUsable(last) { PutSame(last.content.fields, "employees", Record(EmployeesIn(last))); }
    }
  }

  lemma {:induction false} DoneStops(env: Env, files: seq<Stored>, aliases: seq<Alias>, n: nat)
    requires n < |files| && Done(env, files[..n], aliases) == n && MigratedFile(env, files[n], aliases).None?
    ensures Done(env, files, aliases) == n
  {
    var before := files[..|files| - 1];
    if n < |files| - 1 {
      assert before[..n] == files[..n];
      DoneStops(env, before, aliases, n);
    }
  }

  // --- totals ---

  /** What the value of `key` adds to the counter `c`: a number under that key, or all within a record. */
  function Weight(c: string, key: string, v: Json): int
    decreases v, 1
  {
    if key == c && IsNumber(v) then IntOf(v) else TotalOf(c, v)
  }

  function TotalOf(c: string, v: Json): int
    decreases v, 0
  {
    if v.Record? then Total(c, v.fields) else 0
  }

  /** The counter `c` over a record and the records nested in it. */
  function Total(c: string, fields: Fields): int
    decreases fields, 0
  {
    match fields
    case End => 0
    case Field(key, value, rest) => Weight(c, key, value) + Total(c, rest)
  }

  function WeightOf(c: string, key: string, v: Option<Json>): int {
    if v.Some? then Weight(c, key, v.value) else 0
  }

  /** The counter `c` over all employees. */
  function GrandTotal(c: string, employees: Fields): int {
    match employees
    case End => 0
    case Field(_, value, rest) => TotalOf(c, value) + GrandTotal(c, rest)
  }

  lemma {:induction false} TotalAfterPut(c: string, fields: Fields, key: string, v: Json)
    ensures Total(c, Put(fields, key, v)) == Total(c, fields) - WeightOf(c, key, Get(fields, key)) + Weight(c, key, v)
  {
    match fields
    case End =>
    case Field(_, _, rest) => TotalAfterPut(c, rest, key, v);
  }

  // --- where counters are lost ---

  /**
  How much of `c` a merge loses.  A record that meets a value which is neither a record nor empty is
  dropped; so is a record that meets a list.  A counter kept as text is added when it meets a number.
  */
  function Loss(env: Env, c: string, base: Json, incoming: Json): int
    decreases incoming, 0
  {
    if base.Record? && incoming.Record? then LossFields(env, c, base.fields, incoming.fields)
    else if EmployeeRecords.IsEmptyValue(base) then 0
    else TotalOf(c, incoming)
  }

  function LossFields(env: Env, c: string, merged: Fields, incoming: Fields): int
    decreases incoming, 0
  {
    match incoming
    case End => 0
    case Field(key, value, rest) =>
      var next := MergeItem(env, key, Get(merged, key), value);
      LossItem(env, c, key, Get(merged, key), value) +
      if next.None? then 0 else LossFields(env, c, Put(merged, key, next.value), rest)
  }

  function LossItem(env: Env, c: string, key: string, present: Option<Json>, value: Json): int
    decreases value, 1
  {
    if key in env.counters && IsNumber(value) then
      if key == c && OrNull(present).Str? && Truthy(present.value) && env.parse(present.value.s).Some?
      then -env.parse(present.value.s).value else 0
    else if value.List? then TotalOf(c, OrNull(present))
    else if value.Record? then Loss(env, c, if present.Some? then present.value else Record(End), value)
    else 0
  }

  lemma MergeItemAccounts(env: Env, c: string, key: string, present: Option<Json>, value: Json)
    requires c in env.counters && MergeItem(env, key, present, value).Some?
    ensures Weight(c, key, MergeItem(env, key, present, value).value) ==
            WeightOf(c, key, present) + Weight(c, key, value) - LossItem(env, c, key, present, value)
    decreases value, 1
  {
    var have := OrNull(present);
    if key in env.counters && IsNumber(value) {
      FlatWeight(c, key, have);
      FlatWeight(c, key, Int(ToInt(env, have).value + IntOf(value)));
      FlatWeight(c, key, value);
    } else if value.List? {
      assert IsNumber(have) && !Truthy(have) ==> IntOf(have) == 0;
    } else if value.Record? {
      MergeAccounts(env, c, if present.Some? then present.value else Record(End), value);
    } else {
      FlatWeight(c, key, value);
    }
  }

  lemma FlatWeight(c: string, key: string, v: Json)
    requires v.Record? ==> !Truthy(v)
    ensures Weight(c, key, v) == if key == c && IsNumber(v) then IntOf(v) else 0
    ensures IsNumber(v) && !Truthy(v) ==> IntOf(v) == 0
  {
    if v.Record? { assert v.fields == End && Total(c, v.fields) == 0; }
  }

  lemma MergeFieldsAccounts(env: Env, c: string, merged: Fields, incoming: Fields)
    requires c in env.counters && MergeFields(env, merged, incoming).Some?
    ensures Total(c, MergeFields(env, merged, incoming).value) ==
            Total(c, merged) + Total(c, incoming) - LossFields(env, c, merged, incoming)
    decreases incoming, 0
  {
    match incoming
    case End =>
    case Field(key, value, rest) =>
      var next := MergeItem(env, key, Get(merged, key), value).value;
      MergeItemAccounts(env, c, key, Get(merged, key), value);
      TotalAfterPut(c, merged, key, next);
      MergeFieldsAccounts(env, c, Put(merged, key, next), rest);
  }

  /** Every merge that does not raise keeps the counter but for the loss. */
  lemma {:induction false} MergeAccounts(env: Env, c: string, base: Json, incoming: Json)
    requires c in env.counters && Merge(env, base, incoming).Some?
    ensures TotalOf(c, Merge(env, base, incoming).value) ==
            TotalOf(c, base) + TotalOf(c, incoming) - Loss(env, c, base, incoming)
    decreases incoming, 0
  {
    if base.Record? && incoming.Record? {
      MergeFieldsAccounts(env, c, base.fields, incoming.fields);
    }
  }
}
