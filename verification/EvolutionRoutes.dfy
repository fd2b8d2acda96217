/** Where evolution records end up: at the ids to which the aliases, followed in order, lead. */
module EvolutionRoutes {
  import opened Wrappers
  import opened Json
  import opened EvolutionMerge
  import opened EvolutionTheorems

  // --- removing ---

  lemma {:induction false} GetAfterRemove(fields: Fields, key: string, other: string)
    requires HasUniqueKeys(fields)
    ensures Get(Remove(fields, key), other) == if other == key then None else Get(fields, other)
  {
    match fields
    case End =>
    case Field(_, _, rest) => GetAfterRemove(rest, key, other);
  }

  lemma {:induction false} RemoveStaysUnique(fields: Fields, key: string)
    requires HasUniqueKeys(fields)
    ensures HasUniqueKeys(Remove(fields, key))
  {
    match fields
    case End =>
    case Field(k, _, rest) =>
      RemoveStaysUnique(rest, key);
      GetAfterRemove(rest, key, k);
  }

  lemma {:induction false} PutStaysUnique(fields: Fields, key: string, value: Json)
    requires HasUniqueKeys(fields)
    ensures HasUniqueKeys(Put(fields, key, value))
  {
    match fields
    case End =>
    case Field(k, _, rest) =>
      if k != key {
        PutStaysUnique(rest, key, value);
        GetAfterPut(rest, key, value, k);
      }
  }

  // --- one alias ---

  /** `after` is `before` with the record of the alias merged into the one it leads to. */
  ghost predicate IsMoved(env: Env, before: Fields, alias: Alias, after: Fields) {
    var record := Get(before, alias.legacy);
    if record.None? then after == before
    else
      && Get(after, alias.legacy) == None
      && Get(after, alias.canonical).Some?
      && Some(Get(after, alias.canonical).value) == Merge(env, OrNull(Get(before, alias.canonical)), record.value)
      && (Get(before, alias.canonical).None? ==> Get(after, alias.canonical) == record)
      && forall id | id != alias.legacy && id != alias.canonical :: Get(after, id) == Get(before, id)
  }

  /**
  One alias that leads elsewhere: its record leaves the legacy id and is merged into the canonical one; where
  that has none, it gets exactly this record; all other ids keep theirs.  It raises when the merge does.
  */
  lemma MoveIsExact(env: Env, employees: Fields, alias: Alias)
    requires HasUniqueKeys(employees) && alias.legacy != alias.canonical
    ensures Move(env, employees, alias).None? <==>
      Get(employees, alias.legacy).Some?
      && Merge(env, OrNull(Get(employees, alias.canonical)), Get(employees, alias.legacy).value).None?
    ensures Move(env, employees, alias).Some? ==>
      IsMoved(env, employees, alias, Move(env, employees, alias).value) && HasUniqueKeys(Move(env, employees, alias).value)
  {
    var record := Get(employees, alias.legacy);
    if record.Some? {
      var remaining := Remove(employees, alias.legacy);
      GetAfterRemove(employees, alias.legacy, alias.canonical);
      RemoveStaysUnique(employees, alias.legacy);
      var merged := Merge(env, OrNull(Get(remaining, alias.canonical)), record.value);
      if merged.Some? {
        PutStaysUnique(remaining, alias.canonical, merged.value);
        forall id ensures Get(Put(remaining, alias.canonical, merged.value), id) ==
          if id == alias.canonical then merged else if id == alias.legacy then None else Get(employees, id)
        {
          GetAfterPut(remaining, alias.canonical, merged.value, id);
          GetAfterRemove(employees, alias.legacy, id);
        }
      }
    }
  }

  /** The counter at the canonical id is the sum of both records, less the loss of the merge. */
  lemma MovedCountsAddUp(env: Env, c: string, employees: Fields, alias: Alias)
    requires c in env.counters && HasUniqueKeys(employees) && alias.legacy != alias.canonical
    requires Move(env, employees, alias).Some? && Get(employees, alias.legacy).Some?
    ensures var record, target := Get(employees, alias.legacy).value, OrNull(Get(employees, alias.canonical));
      TotalOf(c, OrNull(Get(Move(env, employees, alias).value, alias.canonical))) ==
      TotalOf(c, record) + TotalOf(c, target) - Loss(env, c, target, record)
  {
    MoveIsExact(env, employees, alias);
    MergeAccounts(env, c, OrNull(Get(employees, alias.canonical)), Get(employees, alias.legacy).value);
  }

  // --- all aliases ---

  /** No alias leads to itself; the aliases of a migration do not. */
  predicate LeadElsewhere(aliases: seq<Alias>) {
    forall i | 0 <= i < |aliases| :: aliases[i].legacy != aliases[i].canonical
  }

  /** The id to which `id` is led by the aliases, followed in order. */
  function Destination(aliases: seq<Alias>, id: string): string {
    if aliases == [] then id
    else
      var before, last := Destination(aliases[..|aliases| - 1], id), aliases[|aliases| - 1];
      if before == last.legacy then last.canonical else before
  }

  lemma {:induction false} MigratedIsUnique(env: Env, employees: Fields, aliases: seq<Alias>)
    requires HasUniqueKeys(employees) && LeadElsewhere(aliases) && Migrated(env, employees, aliases).Some?
    ensures HasUniqueKeys(Migrated(env, employees, aliases).value)
  {
    if aliases != [] {
      var init := aliases[..|aliases| - 1];
      MigratedIsUnique(env, employees, init);
      MoveIsExact(env, Migrated(env, employees, init).value, aliases[|aliases| - 1]);
    }
  }

  /** An id that leads elsewhere holds no record afterwards, unless a later alias leads to it. */
  lemma {:induction false} LegacyIdsAreGivenUp(env: Env, employees: Fields, aliases: seq<Alias>, i: nat)
    requires HasUniqueKeys(employees) && LeadElsewhere(aliases) && Migrated(env, employees, aliases).Some?
    requires i < |aliases| && forall j | i < j < |aliases| :: aliases[j].canonical != aliases[i].legacy
    ensures Get(Migrated(env, employees, aliases).value, aliases[i].legacy) == None
  {
    var init, last := aliases[..|aliases| - 1], aliases[|aliases| - 1];
    MigratedIsUnique(env, employees, init);
    MoveIsExact(env, Migrated(env, employees, init).value, last);
    if i < |init| {
      LegacyIdsAreGivenUp(env, employees, init, i);
    }
  }

  /** Some id with a record leads to `id`. */
  predicate IsLedTo(employees: Fields, aliases: seq<Alias>, id: string) {
    match employees
    case End => false
    case Field(key, _, rest) => Destination(aliases, key) == id || IsLedTo(rest, aliases, id)
  }

  /** The counter over all records whose ids lead to `id`. */
  function TotalLedTo(c: string, employees: Fields, aliases: seq<Alias>, id: string): int {
    match employees
    case End => 0
    case Field(key, value, rest) =>
      (if Destination(aliases, key) == id then TotalOf(c, value) else 0) + TotalLedTo(c, rest, aliases, id)
  }

  /** What the merges that fed `id` have lost of the counter. */
  function LossAt(env: Env, c: string, employees: Fields, aliases: seq<Alias>, id: string): int
    requires Migrated(env, employees, aliases).Some?
  {
    if aliases == [] then 0
    else
      var init, last := aliases[..|aliases| - 1], aliases[|aliases| - 1];
      if id == last.legacy then 0
      else if id == last.canonical then
        LossAt(env, c, employees, init, last.canonical) + LossAt(env, c, employees, init, last.legacy)
        + MoveLoss(env, c, Migrated(env, employees, init).value, last)
      else LossAt(env, c, employees, init, id)
  }

  lemma {:induction false} LedOneFurther(c: string, employees: Fields, aliases: seq<Alias>, id: string)
    requires aliases != [] && aliases[|aliases| - 1].legacy != aliases[|aliases| - 1].canonical
    ensures var init, last := aliases[..|aliases| - 1], aliases[|aliases| - 1];
      && TotalLedTo(c, employees, aliases, id) ==
         (if id == last.legacy then 0
          else if id == last.canonical then
            TotalLedTo(c, employees, init, last.canonical) + TotalLedTo(c, employees, init, last.legacy)
          else TotalLedTo(c, employees, init, id))
      && (IsLedTo(employees, aliases, id) <==>
          if id == last.legacy then false
          else if id == last.canonical then
            IsLedTo(employees, init, last.canonical) || IsLedTo(employees, init, last.legacy)
          else IsLedTo(employees, init, id))
  {
    match employees
    case End =>
    case Field(_, _, rest) => LedOneFurther(c, rest, aliases, id);
  }

  lemma {:induction false} LedNowhere(c: string, employees: Fields, id: string)
    requires HasUniqueKeys(employees)
    ensures TotalLedTo(c, employees, [], id) == TotalOf(c, OrNull(Get(employees, id)))
    ensures IsLedTo(employees, [], id) <==> Get(employees, id).Some?
  {
    match employees
    case End =>
    case Field(key, _, rest) =>
      LedNowhere(c, rest, id);
      if key == id { assert Get(rest, id).None?; }
  }

  /** After a migration an id holds a record exactly when some record led to it. */
  lemma {:induction false} HeldWhereLed(env: Env, employees: Fields, aliases: seq<Alias>, id: string)
    requires HasUniqueKeys(employees) && LeadElsewhere(aliases) && Migrated(env, employees, aliases).Some?
    ensures Get(Migrated(env, employees, aliases).value, id).Some? <==> IsLedTo(employees, aliases, id)
  {
    if aliases == [] {
      LedNowhere("", employees, id);
    } else {
      var init, last := aliases[..|aliases| - 1], aliases[|aliases| - 1];
      LedOneFurther("", employees, aliases, id);
      MigratedIsUnique(env, employees, init);
      MoveIsExact(env, Migrated(env, employees, init).value, last);
      HeldWhereLed(env, employees, init, last.legacy);
      HeldWhereLed(env, employees, init, last.canonical);
      HeldWhereLed(env, employees, init, id);
    }
  }

  /** Its counter is the sum over the records that led to it, less what the merges on the way lost. */
  lemma {:induction false} CountsEndWhereTheyLead(env: Env, c: string, employees: Fields, aliases: seq<Alias>, id: string)
    requires c in env.counters && HasUniqueKeys(employees) && LeadElsewhere(aliases)
    requires Migrated(env, employees, aliases).Some?
    ensures TotalOf(c, OrNull(Get(Migrated(env, employees, aliases).value, id))) ==
            TotalLedTo(c, employees, aliases, id) - LossAt(env, c, employees, aliases, id)
  {
    if aliases == [] {
      LedNowhere(c, employees, id);
    } else {
      var init, last := aliases[..|aliases| - 1], aliases[|aliases| - 1];
      var before := Migrated(env, employees, init).value;
      LedOneFurther(c, employees, aliases, id);
      MigratedIsUnique(env, employees, init);
      MoveIsExact(env, before, last);
      CountsEndWhereTheyLead(env, c, employees, init, last.legacy);
      CountsEndWhereTheyLead(env, c, employees, init, last.canonical);
      CountsEndWhereTheyLead(env, c, employees, init, id);
      if Get(before, last.legacy).Some? {
        MovedCountsAddUp(env, c, before, last);
        GetAfterRemove(before, last.legacy, last.canonical);
      }
    }
  }

  /** No other record leads to where `id` does. */
  ghost predicate LeadsAlone(employees: Fields, aliases: seq<Alias>, id: string) {
    forall other | Get(employees, other).Some? && other != id :: Destination(aliases, other) != Destination(aliases, id)
  }

  lemma {:induction false} LedFrom(employees: Fields, aliases: seq<Alias>, id: string) returns (from: string)
    requires IsLedTo(employees, aliases, id)
    ensures Get(employees, from).Some? && Destination(aliases, from) == id
  {
    match employees
    case Field(key, _, rest) =>
      if Destination(aliases, key) == id {
        from := key;
      } else {
        from := LedFrom(rest, aliases, id);
      }
  }

  /** A record that meets no other arrives as it was, however long its chain of aliases. */
  lemma {:induction false} LoneRecordArrives(env: Env, employees: Fields, aliases: seq<Alias>, id: string)
    requires HasUniqueKeys(employees) && LeadElsewhere(aliases)
    requires Migrated(env, employees, aliases).Some?
    requires Get(employees, id).Some? && LeadsAlone(employees, aliases, id)
    ensures Get(Migrated(env, employees, aliases).value, Destination(aliases, id)) == Get(employees, id)
  {
    if aliases != [] {
      var init, last := aliases[..|aliases| - 1], aliases[|aliases| - 1];
      var before, here := Migrated(env, employees, init).value, Destination(init, id);
      LoneRecordArrives(env, employees, init, id);
      MigratedIsUnique(env, employees, init);
      MoveIsExact(env, before, last);
      if here == last.legacy && Get(before, last.canonical).Some? {
        HeldWhereLed(env, employees, init, last.canonical);
        var other := LedFrom(employees, init, last.canonical);
        assert Destination(aliases, other) == last.canonical;
      }
      if here == last.canonical && Get(before, last.legacy).Some? {
        HeldWhereLed(env, employees, init, last.legacy);
        var other := LedFrom(employees, init, last.legacy);
        assert Destination(aliases, other) == last.canonical;
      }
    }
  }

  // --- the aliases of a migration, and the rest of a profile ---

  predicate HaveDistinctKeys(aliases: seq<Alias>) {
    forall i, j | 0 <= i < j < |aliases| :: aliases[i].legacy != aliases[j].legacy
  }

  /** A key that is there keeps its place and gets the new target; a new one comes last. */
  lemma {:induction false} SetAliasIsInPlace(aliases: seq<Alias>, alias: Alias)
    ensures (forall x | x in aliases :: x.legacy != alias.legacy) ==> SetAlias(aliases, alias) == aliases + [alias]
    ensures forall k | 0 <= k < |aliases| && aliases[k].legacy == alias.legacy && HaveDistinctKeys(aliases) ::
      SetAlias(aliases, alias) == aliases[k := alias]
  {
    if aliases != [] && aliases[0].legacy != alias.legacy {
      SetAliasIsInPlace(aliases[1..], alias);
      forall k | 0 <= k < |aliases| && aliases[k].legacy == alias.legacy && HaveDistinctKeys(aliases)
        ensures SetAlias(aliases, alias) == aliases[k := alias]
      {
        assert aliases[1..][k - 1] == aliases[k];
        assert aliases[k := alias] == [aliases[0]] + aliases[1..][k - 1 := alias];
      }
    }
  }

  /** The alias counts: both ids are visible, and stripped they differ. */
  predicate Counts(alias: Alias) {
    Text.Trim(alias.legacy) != "" && Text.Trim(alias.canonical) != "" && Text.Trim(alias.legacy) != Text.Trim(alias.canonical)
  }

  /** The alias at `i` counts, reads as `x`, and no later one that counts has its key. */
  ghost predicate IsLastAt(aliases: seq<Alias>, i: nat, x: Alias) {
    && i < |aliases| && Counts(aliases[i])
    && x == Alias(Text.Trim(aliases[i].legacy), Text.Trim(aliases[i].canonical))
    && forall j | i < j < |aliases| && Counts(aliases[j]) :: Text.Trim(aliases[j].legacy) != x.legacy
  }

  ghost predicate IsLastOfItsKey(aliases: seq<Alias>, x: Alias) {
    exists i :: IsLastAt(aliases, i, x)
  }

  lemma LastAtNext(init: seq<Alias>, last: Alias, i: nat, x: Alias)
    requires i < |init|
    ensures IsLastAt(init + [last], i, x) <==>
            IsLastAt(init, i, x) && !(Counts(last) && Text.Trim(last.legacy) == x.legacy)
  {
    var all := init + [last];
    assert all[|init|] == last && forall j | 0 <= j < |init| :: all[j] == init[j];
  }

  lemma LastOfItsKeyNext(init: seq<Alias>, last: Alias, x: Alias)
    ensures IsLastOfItsKey(init + [last], x) <==>
      || (Counts(last) && x == Alias(Text.Trim(last.legacy), Text.Trim(last.canonical)))
      || (IsLastOfItsKey(init, x) && !(Counts(last) && Text.Trim(last.legacy) == x.legacy))
  {
    var all := init + [last];
    forall i: nat | i < |init| ensures IsLastAt(all, i, x) <==>
      IsLastAt(init, i, x) && !(Counts(last) && Text.Trim(last.legacy) == x.legacy)
    {
      LastAtNext(init, last, i, x);
    }
    assert IsLastAt(all, |init|, x) <==> Counts(last) && x == Alias(Text.Trim(last.legacy), Text.Trim(last.canonical));
    assert forall i: nat | IsLastAt(all, i, x) :: i < |init| || i == |init|;
  }

  /** The aliases that a migration follows: each key once, with the target that the last alias of that key gives it. */
  lemma {:induction false} LeadingIsExact(aliases: seq<Alias>)
    ensures HaveDistinctKeys(Leading(aliases)) && LeadElsewhere(Leading(aliases))
    ensures forall x :: x in Leading(aliases) <==> IsLastOfItsKey(aliases, x)
  {
    if aliases != [] {
      var n := |aliases| - 1;
      var init, last := aliases[..n], aliases[n];
      assert aliases == init + [last];
      LeadingIsExact(init);
      var alias := Alias(Text.Trim(last.legacy), Text.Trim(last.canonical));
      forall x ensures x in Leading(aliases) <==> IsLastOfItsKey(aliases, x) {
        LastOfItsKeyNext(init, last, x);
        if Counts(last) { SetAliasMembers(Leading(init), alias, x); }
      }
      if Counts(last) { SetAliasStays(Leading(init), alias); }
    }
  }

  lemma {:induction false} SetAliasMembers(aliases: seq<Alias>, alias: Alias, x: Alias)
    requires HaveDistinctKeys(aliases)
    ensures x in SetAlias(aliases, alias) <==> x == alias || (x in aliases && x.legacy != alias.legacy)
  {
    if k :| 0 <= k < |aliases| && aliases[k].legacy == alias.legacy {
      SetAliasIsInPlace(aliases, alias);
      if x in aliases && x.legacy != alias.legacy {
        var i :| 0 <= i < |aliases| && aliases[i] == x;
        assert aliases[k := alias][i] == x;
      }
      assert aliases[k := alias][k] == alias;
    } else {
      SetAliasIsInPlace(aliases, alias);
    }
  }

  lemma SetAliasStays(aliases: seq<Alias>, alias: Alias)
    requires HaveDistinctKeys(aliases) && LeadElsewhere(aliases) && alias.legacy != alias.canonical
    ensures HaveDistinctKeys(SetAlias(aliases, alias)) && LeadElsewhere(SetAlias(aliases, alias))
  {
    SetAliasIsInPlace(aliases, alias);
    if k :| 0 <= k < |aliases| && aliases[k].legacy == alias.legacy {
      assert SetAlias(aliases, alias) == aliases[k := alias];
    } else {
      assert forall y | y in aliases :: y.legacy != alias.legacy;
    }
  }

  /** A migrated profile keeps everything beside its employees. */
  lemma ProfileKeepsTheRest(env: Env, file: Stored, aliases: seq<Alias>, key: string)
    requires IsUsable(file) && MigratedFile(env, file, aliases).Some?
    ensures var after := MigratedFile(env, file, aliases).value;
      && IsUsable(after) && Some(EmployeesIn(after)) == Migrated(env, EmployeesIn(file), aliases)
      && (key != "employees" ==> Get(after.content.fields, key) == Get(file.content.fields, key))
  {
    var employees := Record(Migrated(env, EmployeesIn(file), aliases).value);
    GetAfterPut(file.content.fields, "employees", employees, "employees");
    GetAfterPut(file.content.fields, "employees", employees, key);
  }
}
