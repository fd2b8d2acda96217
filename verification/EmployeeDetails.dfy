/** The details of normalizing employees: canonical forms, merged metadata, aliases and order, each told exactly. */
module EmployeeDetails {
  import opened Wrappers
  import opened Text
  import opened Json
  import opened EmployeeRecords
  import opened EmployeeTheorems
  import EvolutionTheorems

  // --- united lists ---

  /** The addition at `j` is the first one that is not among the `known`. */
  ghost predicate IsFirstNew(additions: seq<string>, known: seq<string>, j: nat) {
    j < |additions| && additions[j] !in known && forall i | 0 <= i < j :: additions[i] in known
  }

  /** United lists start with what was there, and go on with each new item once, in the order of the additions. */
  lemma {:induction false} UnionKeepsOrder(items: seq<string>, additions: seq<string>, k: nat) returns (j: nat)
    ensures items <= AppendUnique(items, additions)
    ensures forall x | x in additions :: x in AppendUnique(items, additions)
    ensures |items| <= k < |AppendUnique(items, additions)| ==>
      IsFirstNew(additions, AppendUnique(items, additions)[..k], j) && additions[j] == AppendUnique(items, additions)[k]
    decreases |additions|
  {
    j := 0;
    if additions != [] {
      var x, result := additions[0], AppendUnique(items, additions);
      var next := if x in items then items else items + [x];
      var later := UnionKeepsOrder(next, additions[1..], k);
      assert x in next;
      if |next| <= k < |result| {
        assert x in result[..k] by { assert next <= result[..k]; }
        forall i | 0 <= i < later + 1 ensures additions[i] in result[..k] {
          if i > 0 { assert additions[i] == additions[1..][i - 1]; }
        }
        j := later + 1;
      } else if |items| <= k < |result| {
        assert result[..k] == items && result[k] == x;
      }
    }
  }

  // --- the canonical form ---

  /** The template's id if it is visible, else the employee's own, stripped. */
  predicate GoesBy(e: Employee, id: string) {
    if exists c :: c in e.templateId && !IsSpace(c) then id == Trim(e.templateId) else id == Trim(e.id)
  }

  lemma CanonicalIdIsExact(e: Employee)
    ensures GoesBy(e, CanonicalId(e))
  {
    TrimIsBlank(e.templateId);
  }

  lemma {:induction false} VisibleIsExact(ids: seq<string>, x: string)
    ensures x in Visible(ids) <==> x != "" && exists y :: y in ids && Trim(y) == x
  {
    if ids != [] {
      VisibleIsExact(ids[1..], x);
      assert ids == [ids[0]] + ids[1..];
    }
  }

  /** The employee gives up `x`: it lists it as a legacy id, or it is its own id and it goes by another. */
  predicate GivesUp(e: Employee, x: string) {
    x != "" && ((exists y :: y in Items(e.metadata.legacyIds) && Trim(y) == x) || (x == Trim(e.id) && !GoesBy(e, x)))
  }

  lemma LegacyIdsAreExact(e: Employee, x: string)
    ensures x in LegacyIds(e) <==> GivesUp(e, x)
  {
    VisibleIsExact(Items(e.metadata.legacyIds), x);
    CanonicalIdIsExact(e);
  }

  /** A text that is there, or else `fallback` if there is a reason for it. */
  function Defaulted(text: Option<string>, reason: bool, fallback: string): Option<string> {
    if text.Some? then text else if reason then Some(fallback) else None
  }

  predicate IsVisible(s: string) {
    exists c :: c in s && !IsSpace(c)
  }

  /**
  The canonical form changes the id and the metadata that follow from it: the given-up ids are listed, the
  role joins the home and staffed roles, and missing home role and canonical id are filled in.
  */
  lemma CanonicalIsExact(e: Employee, x: string)
    ensures var c := Canonical(e);
      && GoesBy(e, c.id) && c == e.(id := c.id, metadata := c.metadata)
      && c.metadata.placeholder == e.metadata.placeholder && c.metadata.rest == e.metadata.rest
      && ((exists y :: GivesUp(e, y)) ==> (x in Items(c.metadata.legacyIds) <==> GivesUp(e, x)))
      && ((forall y :: !GivesUp(e, y)) ==> c.metadata.legacyIds == e.metadata.legacyIds)
      && (x in Items(c.metadata.homeRoleIds) <==>
            x in Items(e.metadata.homeRoleIds) || (IsVisible(e.roleId) && x == Trim(e.roleId)))
      && (x in Items(c.metadata.staffedRoleIds) <==>
            x in Items(e.metadata.staffedRoleIds) || (IsVisible(e.roleId) && x == Trim(e.roleId)))
      && c.metadata.homeRoleId == Defaulted(e.metadata.homeRoleId, IsVisible(e.roleId), Trim(e.roleId))
      && c.metadata.canonicalId == Defaulted(e.metadata.canonicalId, IsVisible(e.templateId), c.id)
  {
    hide Trim, LegacyIds, AppendUnique;
    CanonicalIdIsExact(e);
    TrimIsBlank(e.roleId);
    TrimIsBlank(e.templateId);
    forall y ensures y in LegacyIds(e) <==> GivesUp(e, y) {
      LegacyIdsAreExact(e, y);
    }
    AppendUniqueUnites(Items(e.metadata.homeRoleIds), [Trim(e.roleId)], x);
    AppendUniqueUnites(Items(e.metadata.staffedRoleIds), [Trim(e.roleId)], x);
    if LegacyIds(e) != [] { assert LegacyIds(e)[0] in LegacyIds(e) && GivesUp(e, LegacyIds(e)[0]); }
  }

  // --- merged metadata ---

  /** The text that is there and filled, else the incoming one if there is one. */
  predicate IsFirstText(merged: Option<string>, base: Option<string>, incoming: Option<string>) {
    if base.Some? && base.value != "" then merged == base
    else if incoming.Some? then merged == incoming
    else merged == base
  }

  lemma {:induction false} GetAfterUpdate(base: Fields, incoming: Fields, key: string)
    requires EvolutionTheorems.HasUniqueKeys(incoming)
    ensures Get(Update(base, incoming), key) == if Get(incoming, key).Some? then Get(incoming, key) else Get(base, key)
    decreases incoming
  {
    match incoming
    case End =>
    case Field(k, value, rest) =>
      GetAfterPut(base, k, value, key);
      GetAfterUpdate(Put(base, k, value), rest, key);
  }

  /** An empty value is replaced, and of two records the incoming fields win; any other value stays. */
  ghost predicate IsMergedValue(merged: Json, base: Json, incoming: Json) {
    if base == Null || base == Json.Str("") || base == List([]) || base == Record(End) then merged == incoming
    else if base.Record? && incoming.Record? then
      merged.Record? && (EvolutionTheorems.HasUniqueKeys(incoming.fields) ==> forall key ::
        Get(merged.fields, key) ==
        if Get(incoming.fields, key).Some? then Get(incoming.fields, key) else Get(base.fields, key))
    else merged == base
  }

  /** Merging two employees merges their metadata key by key. */
  lemma MetadataIsMerged(a: Employee, b: Employee)
    ensures var m := Merge(a, b).metadata;
      && Merge(a, b).id == a.id
      && IsFirstText(m.homeRoleId, a.metadata.homeRoleId, b.metadata.homeRoleId)
      && IsFirstText(m.canonicalId, a.metadata.canonicalId, b.metadata.canonicalId)
      && m.rest.Keys == a.metadata.rest.Keys + b.metadata.rest.Keys
      && (forall k | k in a.metadata.rest && k !in b.metadata.rest :: m.rest[k] == a.metadata.rest[k])
      && (forall k | k in b.metadata.rest && k !in a.metadata.rest :: m.rest[k] == b.metadata.rest[k])
      && (forall k | k in a.metadata.rest && k in b.metadata.rest ::
            IsMergedValue(m.rest[k], a.metadata.rest[k], b.metadata.rest[k]))
  {
    var m := Merge(a, b).metadata;
    forall k | k in a.metadata.rest && k in b.metadata.rest
      ensures IsMergedValue(m.rest[k], a.metadata.rest[k], b.metadata.rest[k])
    {
      ValueIsMerged(a.metadata.rest[k], b.metadata.rest[k]);
    }
  }

  lemma ValueIsMerged(base: Json, incoming: Json)
    ensures IsMergedValue(MergeValue(base, incoming), base, incoming)
  {
    if base.Record? && incoming.Record? && EvolutionTheorems.HasUniqueKeys(incoming.fields) {
      forall key ensures Get(Update(base.fields, incoming.fields), key) ==
        if Get(incoming.fields, key).Some? then Get(incoming.fields, key) else Get(base.fields, key)
      {
        GetAfterUpdate(base.fields, incoming.fields, key);
      }
    }
  }

  /** The lists of a merged employee are those of the first, followed by what is new in those of the second. */
  lemma MergedListsAreUnions(a: Employee, b: Employee, f: ListField, k: nat) returns (j: nat)
    ensures var merged := ListOf(Merge(a, b), f);
      && ListOf(a, f) <= merged
      && (|ListOf(a, f)| <= k < |merged| ==> IsFirstNew(ListOf(b, f), merged[..k], j) && ListOf(b, f)[j] == merged[k])
  {
    j := UnionKeepsOrder(ListOf(a, f), ListOf(b, f), k);
  }

  // --- aliases ---

  /** The record at `i` is the last one that gives up `x`. */
  ghost predicate IsLastToGiveUp(raws: seq<Raw>, i: nat, x: string) {
    && i < |raws| && IsReal(raws[i]) && GivesUp(raws[i].value, x)
    && forall j | i < j < |raws| && IsReal(raws[j]) :: !GivesUp(raws[j].value, x)
  }

  lemma LastToGiveUpNext(raws: seq<Raw>, i: nat, x: string)
    requires i + 1 < |raws|
    ensures IsLastToGiveUp(raws, i, x) <==>
            IsLastToGiveUp(raws[..|raws| - 1], i, x)
            && !(IsReal(raws[|raws| - 1]) && GivesUp(raws[|raws| - 1].value, x))
  {
    var earlier := raws[..|raws| - 1];
    assert forall j | 0 <= j < |earlier| :: earlier[j] == raws[j];
  }

  /** An alias leads to the id by which the last record goes that gives up its legacy id. */
  lemma {:induction false} AliasesAreExact(raws: seq<Raw>, x: string)
    ensures x in AllAliases(raws) <==> exists i: nat :: IsLastToGiveUp(raws, i, x)
    ensures forall i: nat | IsLastToGiveUp(raws, i, x) ::
      x in AllAliases(raws) && GoesBy(raws[i].value, AllAliases(raws)[x])
  {
    if raws != [] {
      var n := |raws| - 1;
      var earlier, last := raws[..n], raws[n];
      AliasesAreExact(earlier, x);
      forall i: nat | i < n
        ensures IsLastToGiveUp(raws, i, x) <==>
                IsLastToGiveUp(earlier, i, x) && !(IsReal(last) && GivesUp(last.value, x))
      {
        LastToGiveUpNext(raws, i, x);
      }
      if IsReal(last) {
        LegacyIdsAreExact(last.value, x);
        CanonicalIdIsExact(last.value);
      }
      assert IsLastToGiveUp(raws, n, x) <==> IsReal(last) && GivesUp(last.value, x);
      assert forall i: nat | IsLastToGiveUp(raws, i, x) :: i < n || i == n;
      if x in AllAliases(raws) && !(IsReal(last) && GivesUp(last.value, x)) {
        var i: nat :| IsLastToGiveUp(earlier, i, x);
        assert IsLastToGiveUp(raws, i, x);
      }
    }
  }

  /** The employee to which an alias leads is in the normalized list, under that id. */
  lemma AliasLeadsToItsEmployee(raws: seq<Raw>, x: string, i: nat)
    requires IsLastToGiveUp(raws, i, x)
    ensures x in AllAliases(raws) && GoesBy(raws[i].value, AllAliases(raws)[x])
    ensures var found := Find(Reals(raws), AllAliases(raws)[x]);
      found.Some? && found.value.id == AllAliases(raws)[x]
  {
    AliasesAreExact(raws, x);
    AliasesLeadToEmployees(raws, x);
    FindIsThere(Reals(raws), AllAliases(raws)[x]);
  }

  // --- order ---

  lemma StartAlike(a: string, b: string, i: nat)
    requires i <= |a| && i <= |b| && a[..i] == b[..i]
    ensures i > 0 ==> a[0] == b[0]
  {
    if i > 0 { assert a[..i][0] == a[0] && b[..i][0] == b[0]; }
  }

  /** `a` is a beginning of `b`, or smaller where they first differ. */
  predicate IsBefore(a: string, b: string) {
    a <= b || exists i :: 0 <= i < |a| && i < |b| && a[..i] == b[..i] && a[i] < b[i]
  }

  /** A common first character makes no difference. */
  lemma BeforeWithoutStart(c: char, a: string, b: string)
    ensures IsBefore([c] + a, [c] + b) <==> IsBefore(a, b)
  {
    var x, y := [c] + a, [c] + b;
    assert x[1..] == a && y[1..] == b;
    if i :| 0 < i < |x| && i < |y| && x[..i] == y[..i] && x[i] < y[i] {
      assert a[..i - 1] == x[..i][1..] && b[..i - 1] == y[..i][1..] && a[i - 1] == x[i];
    }
    if i :| 0 <= i < |a| && i < |b| && a[..i] == b[..i] && a[i] < b[i] {
      assert x[..i + 1] == [c] + a[..i] && y[..i + 1] == [c] + b[..i] && x[i + 1] < y[i + 1];
    }
    assert x <= y <==> a <= b;
  }

  lemma BeforeByStart(a: string, b: string)
    requires a != "" && b != "" && a[0] != b[0]
    ensures IsBefore(a, b) <==> a[0] < b[0]
  {
    if a[0] < b[0] { assert a[..0] == b[..0]; }
    if i :| 0 <= i < |a| && i < |b| && a[..i] == b[..i] && a[i] < b[i] {
      StartAlike(a, b, i);
    }
  }

  lemma {:induction false} TextLeIsLexicographic(a: string, b: string)
    ensures TextLe(a, b) <==> IsBefore(a, b)
  {
    if a != "" && b != "" {
      hide IsBefore;
      assert a == [a[0]] + a[1..] && b == [b[0]] + b[1..];
      if a[0] == b[0] {
        TextLeIsLexicographic(a[1..], b[1..]);
        BeforeWithoutStart(a[0], a[1..], b[1..]);
      } else {
        BeforeByStart(a, b);
      }
    }
  }

  /** Placeholders come out as they went in, all of them and in order. */
  lemma {:induction false} PlaceholdersAreKept(raws: seq<Raw>) returns (positions: seq<nat>)
    ensures forall i :: i in positions <==> 0 <= i < |raws| && raws[i].Some? && raws[i].value.metadata.placeholder
    ensures forall j, k | 0 <= j < k < |positions| :: positions[j] < positions[k]
    ensures |Placeholders(raws)| == |positions|
    ensures forall k | 0 <= k < |positions| ::
      positions[k] < |raws| && raws[positions[k]] == Some(Placeholders(raws)[k])
  {
    positions := [];
    if raws != [] {
      var n := |raws| - 1;
      positions := PlaceholdersAreKept(raws[..n]);
      assert forall k | 0 <= k < |positions| :: positions[k] in positions && positions[k] < n;
      assert forall i | 0 <= i < n :: raws[..n][i] == raws[i];
      if raws[n].Some? && raws[n].value.metadata.placeholder {
        var before := positions;
        positions := before + [n];
        assert forall i :: i in positions <==> i in before || i == n;
      }
    }
  }
}
