/** What normalizing employee records guarantees, and when normalizing twice is normalizing once. */
module EmployeeTheorems {
  import opened Wrappers
  import opened Text
  import opened EmployeeRecords

  ghost predicate DistinctIds(employees: seq<Employee>) {
    forall i, j | 0 <= i < j < |employees| :: employees[i].id != employees[j].id
  }

  // --- looking up, absorbing, sorting ---

  lemma {:induction false} FindIsThere(employees: seq<Employee>, id: string)
    ensures Find(employees, id).Some? ==> Find(employees, id).value in employees && Find(employees, id).value.id == id
    ensures Find(employees, id).None? <==> forall e | e in employees :: e.id != id
  {
    if employees != [] {
      FindIsThere(employees[1..], id);
      assert employees == [employees[0]] + employees[1..];
    }
  }

  lemma {:induction false} FindDistinct(employees: seq<Employee>, e: Employee)
    requires DistinctIds(employees) && e in employees
    ensures Find(employees, e.id) == Some(e)
  {
    if employees[0] != e {
      FindDistinct(employees[1..], e);
    }
  }

  lemma {:induction false} FindAfterAbsorb(employees: seq<Employee>, e: Employee, id: string)
    ensures Find(Absorb(employees, e), id) ==
            if id != e.id then Find(employees, id)
            else Some(if Find(employees, id).Some? then Merge(Find(employees, id).value, e) else e)
  {
    if employees != [] && employees[0].id != e.id {
      FindAfterAbsorb(employees[1..], e, id);
      assert Absorb(employees, e)[1..] == Absorb(employees[1..], e);
    } else if employees != [] {
      assert Absorb(employees, e)[1..] == employees[1..];
    }
  }

  lemma {:induction false} AbsorbStaysDistinct(employees: seq<Employee>, e: Employee)
    requires DistinctIds(employees)
    ensures DistinctIds(Absorb(employees, e))
    ensures forall x | x in Absorb(employees, e) :: x.id == e.id || x in employees
  {
    if employees != [] && employees[0].id != e.id {
      AbsorbStaysDistinct(employees[1..], e);
      var later := Absorb(employees[1..], e);
      forall i | 0 <= i < |later| ensures later[i].id != employees[0].id {
        assert later[i] in later;
      }
    }
  }

  /** The real employees have distinct ids. */
  lemma {:induction false} RealsAreDistinct(raws: seq<Raw>)
    ensures DistinctIds(Reals(raws))
  {
    if raws != [] {
      RealsAreDistinct(raws[..|raws| - 1]);
      var last := raws[|raws| - 1];
      if IsReal(last) { AbsorbStaysDistinct(Reals(raws[..|raws| - 1]), Canonical(last.value)); }
    }
  }

  lemma {:induction false} InsertKeeps(le: (Employee, Employee) -> bool, e: Employee, sorted: seq<Employee>)
    ensures forall x :: x in Insert(le, e, sorted) <==> x == e || x in sorted
    ensures DistinctIds(sorted) && (forall x | x in sorted :: x.id != e.id) ==> DistinctIds(Insert(le, e, sorted))
    ensures |Insert(le, e, sorted)| == |sorted| + 1
  {
    if sorted != [] && !le(e, sorted[0]) {
      InsertKeeps(le, e, sorted[1..]);
      assert sorted == [sorted[0]] + sorted[1..];
      var later := Insert(le, e, sorted[1..]);
      if DistinctIds(sorted) && (forall x | x in sorted :: x.id != e.id) {
        forall i | 0 <= i < |later| ensures later[i].id != sorted[0].id {
          assert later[i] in later;
        }
      }
    }
  }

  lemma {:induction false} SortKeeps(le: (Employee, Employee) -> bool, employees: seq<Employee>)
    ensures forall x :: x in Sort(le, employees) <==> x in employees
    ensures DistinctIds(employees) ==> DistinctIds(Sort(le, employees))
    ensures |Sort(le, employees)| == |employees|
  {
    if employees != [] {
      SortKeeps(le, employees[1..]);
      InsertKeeps(le, employees[0], Sort(le, employees[1..]));
      assert employees == [employees[0]] + employees[1..];
    }
  }

  predicate IsSorted(le: (Employee, Employee) -> bool, employees: seq<Employee>) {
    forall i | 0 <= i < |employees| - 1 :: le(employees[i], employees[i + 1])
  }

  ghost predicate IsTotal(le: (Employee, Employee) -> bool) {
    forall a, b :: le(a, b) || le(b, a)
  }

  lemma {:induction false} InsertSorts(le: (Employee, Employee) -> bool, e: Employee, sorted: seq<Employee>)
    requires IsTotal(le) && IsSorted(le, sorted)
    ensures IsSorted(le, Insert(le, e, sorted))
    ensures Insert(le, e, sorted)[0] == e || (sorted != [] && Insert(le, e, sorted)[0] == sorted[0])
  {
    if sorted != [] && !le(e, sorted[0]) {
      InsertSorts(le, e, sorted[1..]);
    }
  }

  lemma {:induction false} SortSorts(le: (Employee, Employee) -> bool, employees: seq<Employee>)
    requires IsTotal(le)
    ensures IsSorted(le, Sort(le, employees))
  {
    if employees != [] {
      SortSorts(le, employees[1..]);
      InsertSorts(le, employees[0], Sort(le, employees[1..]));
    }
  }

  lemma {:induction false} SortedIsKept(le: (Employee, Employee) -> bool, employees: seq<Employee>)
    requires IsSorted(le, employees)
    ensures Sort(le, employees) == employees
  {
    if employees != [] {
      SortedIsKept(le, employees[1..]);
    }
  }

  lemma {:induction false} TextLeIsTotal(a: string, b: string)
    ensures TextLe(a, b) || TextLe(b, a)
  {
    if a != "" && b != "" && a[0] == b[0] {
      TextLeIsTotal(a[1..], b[1..]);
    }
  }

  lemma ByKeyIsTotal(lower: string -> string)
    ensures IsTotal(ByKey(lower))
  {
    forall a: Employee, b: Employee ensures KeyLe(lower, a, b) || KeyLe(lower, b, a) {
      TextLeIsTotal(a.category, b.category);
      TextLeIsTotal(lower(a.name), lower(b.name));
      TextLeIsTotal(a.id, b.id);
    }
  }

  // --- list fields are united ---

  datatype ListField = Domains | Tags | PromptRefs | SkillRefs | LegacyEmployeeIds | HomeRoleIds | StaffedRoleIds

  function ListOf(e: Employee, f: ListField): seq<string> {
    match f
    case Domains => e.domains
    case Tags => e.tags
    case PromptRefs => e.promptRefs
    case SkillRefs => e.skillRefs
    case LegacyEmployeeIds => Items(e.metadata.legacyIds)
    case HomeRoleIds => Items(e.metadata.homeRoleIds)
    case StaffedRoleIds => Items(e.metadata.staffedRoleIds)
  }

  lemma {:induction false} AppendUniqueUnites<T>(items: seq<T>, additions: seq<T>, x: T)
    ensures x in AppendUnique(items, additions) <==> x in items || x in additions
    decreases |additions|
  {
    if additions != [] {
      AppendUniqueUnites(if additions[0] in items then items else items + [additions[0]], additions[1..], x);
    }
  }

  lemma MergeUnites(a: Employee, b: Employee, f: ListField, x: string)
    ensures x in ListOf(Merge(a, b), f) <==> x in ListOf(a, f) || x in ListOf(b, f)
  {
    AppendUniqueUnites(ListOf(a, f), ListOf(b, f), x);
  }

  /** The record contributes `x` to the list of the employee `id`, once it is in canonical form. */
  predicate Contributes(raw: Raw, id: string, f: ListField, x: string) {
    IsReal(raw) && CanonicalId(raw.value) == id && x in ListOf(Canonical(raw.value), f)
  }

  ghost predicate SomeoneContributes(raws: seq<Raw>, id: string, f: ListField, x: string) {
    Any(raws, Contribution(id, f, x))
  }

  function Contribution(id: string, f: ListField, x: string): Raw -> bool {
    raw => Contributes(raw, id, f, x)
  }

  ghost predicate Any(raws: seq<Raw>, p: Raw -> bool) {
    exists i :: 0 <= i < |raws| && p(raws[i])
  }

  lemma AnyLast(raws: seq<Raw>, p: Raw -> bool)
    requires raws != []
    ensures Any(raws, p) <==> Any(raws[..|raws| - 1], p) || p(raws[|raws| - 1])
  {
    if Any(raws[..|raws| - 1], p) {
      var i :| 0 <= i < |raws| - 1 && p(raws[..|raws| - 1][i]);
      assert p(raws[i]);
    }
    if Any(raws, p) {
      var i :| 0 <= i < |raws| && p(raws[i]);
      if i < |raws| - 1 { assert p(raws[..|raws| - 1][i]); }
    }
  }

  predicate HasInList(employees: seq<Employee>, id: string, f: ListField, x: string) {
    Find(employees, id).Some? && x in ListOf(Find(employees, id).value, f)
  }

  /** Each list of a merged employee is the union of that list over its records. */
  lemma {:induction false} ListsAreUnited(raws: seq<Raw>, id: string, f: ListField, x: string)
    ensures HasInList(Reals(raws), id, f, x) <==> SomeoneContributes(raws, id, f, x)
  {
    if raws != [] {
      var earlier, last := raws[..|raws| - 1], raws[|raws| - 1];
      ListsAreUnited(earlier, id, f, x);
      AnyLast(raws, Contribution(id, f, x));
      if IsReal(last) {
        FindAfterAbsorb(Reals(earlier), Canonical(last.value), id);
        if Find(Reals(earlier), id).Some? {
          MergeUnites(Find(Reals(earlier), id).value, Canonical(last.value), f, x);
        }
      }
    }
  }

  // --- gaps are filled, and the longest description wins ---

  datatype TextField = Template | Name | Role | Category | Agent | Seniority | Status

  function FieldOf(e: Employee, f: TextField): string {
    match f
    case Template => e.templateId
    case Name => e.name
    case Role => e.roleId
    case Category => e.category
    case Agent => e.agent
    case Seniority => e.seniority
    case Status => e.status
  }

  /** The records of the employee `id`, in canonical form and in order. */
  function Group(raws: seq<Raw>, id: string): seq<Employee> {
    if raws == [] then []
    else
      var earlier, last := Group(raws[..|raws| - 1], id), raws[|raws| - 1];
      if IsReal(last) && CanonicalId(last.value) == id then earlier + [Canonical(last.value)] else earlier
  }

  /** All of them merged, from left to right. */
  function Folded(group: seq<Employee>): Employee
    requires group != []
  {
    if |group| == 1 then group[0] else Merge(Folded(group[..|group| - 1]), group[|group| - 1])
  }

  /** An employee is what its records make when they are merged in order, whatever comes between them. */
  lemma {:induction false} EmployeeIsItsFoldedGroup(raws: seq<Raw>, id: string)
    ensures Find(Reals(raws), id) == if Group(raws, id) == [] then None else Some(Folded(Group(raws, id)))
  {
    if raws != [] {
      var earlier, last := raws[..|raws| - 1], raws[|raws| - 1];
      EmployeeIsItsFoldedGroup(earlier, id);
      if IsReal(last) {
        FindAfterAbsorb(Reals(earlier), Canonical(last.value), id);
        assert (Group(earlier, id) + [Canonical(last.value)])[..|Group(earlier, id)|] == Group(earlier, id);
      }
    }
  }

  /** A text of the merged employee is the first one of its records that is not empty: `i` is that record. */
  lemma {:induction false} TextIsFirstFilled(group: seq<Employee>, f: TextField) returns (i: nat)
    requires group != []
    ensures i < |group| && FieldOf(Folded(group), f) == FieldOf(group[i], f)
    ensures forall j | 0 <= j < i :: FieldOf(group[j], f) == ""
    ensures FieldOf(group[i], f) == "" ==> forall j | 0 <= j < |group| :: FieldOf(group[j], f) == ""
  {
    i := 0;
    if |group| > 1 {
      var earlier := group[..|group| - 1];
      i := TextIsFirstFilled(earlier, f);
      assert group[i] == earlier[i] && forall j | 0 <= j < |earlier| :: group[j] == earlier[j];
      if FieldOf(earlier[i], f) == "" { i := |group| - 1; }
    }
  }

  /** Its description is the first of the longest ones: `i` is that record. */
  lemma {:induction false} DescriptionIsFirstLongest(group: seq<Employee>) returns (i: nat)
    requires group != []
    ensures i < |group| && Folded(group).description == group[i].description
    ensures forall j | 0 <= j < |group| :: |group[j].description| <= |group[i].description|
    ensures forall j | 0 <= j < i :: |group[j].description| < |group[i].description|
  {
    i := 0;
    if |group| > 1 {
      var earlier := group[..|group| - 1];
      i := DescriptionIsFirstLongest(earlier);
      assert group[i] == earlier[i] && forall j | 0 <= j < |earlier| :: group[j] == earlier[j];
      if |group[|group| - 1].description| > |earlier[i].description| { i := |group| - 1; }
    }
  }

  // --- canonical employees ---

  predicate IsTrimmed(s: string) {
    Trim(s) == s
  }

  lemma TrimTwice(s: string)
    ensures IsTrimmed(Trim(s))
  {
    TrimIsTrimmed(s);
    TrimIsTrimmed(Trim(s));
  }

  predicate HasRole(list: Option<seq<string>>, role: string) {
    list.Some? && role in list.value
  }

  /** All of the canonical form but for blank legacy ids. */
  ghost predicate NearlyCanonical(e: Employee) {
    && CanonicalId(e) == e.id && IsTrimmed(e.id) && !e.metadata.placeholder
    && (Trim(e.templateId) != "" ==> e.metadata.canonicalId.Some?)
    && (Trim(e.roleId) != "" ==>
          && e.metadata.homeRoleId.Some?
          && HasRole(e.metadata.homeRoleIds, Trim(e.roleId)) && HasRole(e.metadata.staffedRoleIds, Trim(e.roleId)))
    && (forall x | x in Items(e.metadata.legacyIds) :: Trim(x) == "" || IsTrimmed(x))
  }

  lemma {:induction false} VisibleIsTrimmed(ids: seq<string>)
    ensures forall x | x in Visible(ids) :: x != "" && IsTrimmed(x)
    ensures Visible(ids) == [] <==> forall x | x in ids :: Trim(x) == ""
  {
    if ids != [] {
      VisibleIsTrimmed(ids[1..]);
      TrimTwice(ids[0]);
      assert ids == [ids[0]] + ids[1..];
    }
  }

  /** Of trimmed entries, all stay exactly if none is blank. */
  lemma {:induction false} VisibleOfTrimmed(ids: seq<string>)
    requires forall x | x in ids :: Trim(x) == "" || IsTrimmed(x)
    ensures |Visible(ids)| <= |ids|
    ensures Visible(ids) == ids <==> forall x | x in ids :: Trim(x) != ""
  {
    if ids != [] {
      VisibleOfTrimmed(ids[1..]);
      assert ids == [ids[0]] + ids[1..];
    }
  }

  lemma CanonicalIsNearlyCanonical(e: Employee)
    requires !e.metadata.placeholder
    ensures NearlyCanonical(Canonical(e))
  {
    TrimTwice(e.id);
    TrimTwice(e.templateId);
    VisibleIsTrimmed(Items(e.metadata.legacyIds));
    AppendUniqueUnites(Items(e.metadata.homeRoleIds), [Trim(e.roleId)], Trim(e.roleId));
    AppendUniqueUnites(Items(e.metadata.staffedRoleIds), [Trim(e.roleId)], Trim(e.roleId));
  }

  lemma MergeIsNearlyCanonical(a: Employee, b: Employee)
    requires NearlyCanonical(a) && NearlyCanonical(b) && a.id == b.id
    ensures NearlyCanonical(Merge(a, b))
  {
    hide AppendUnique, TrimLeft, TrimRight;
    var m := Merge(a, b);
    var role := Trim(m.roleId);
    MergeUnites(a, b, HomeRoleIds, role);
    MergeUnites(a, b, StaffedRoleIds, role);
    forall x | x in Items(m.metadata.legacyIds) ensures Trim(x) == "" || IsTrimmed(x) {
      MergeUnites(a, b, LegacyEmployeeIds, x);
    }
  }

  lemma {:induction false} RealsAreNearlyCanonical(raws: seq<Raw>, id: string)
    requires Find(Reals(raws), id).Some?
    ensures NearlyCanonical(Find(Reals(raws), id).value)
  {
    var earlier, last := raws[..|raws| - 1], raws[|raws| - 1];
    if IsReal(last) {
      var e := Canonical(last.value);
      FindAfterAbsorb(Reals(earlier), e, id);
      CanonicalIsNearlyCanonical(last.value);
      if Find(Reals(earlier), id).Some? {
        RealsAreNearlyCanonical(earlier, id);
        FindIsThere(Reals(earlier), id);
        if e.id == id { MergeIsNearlyCanonical(Find(Reals(earlier), id).value, e); }
      }
    } else {
      RealsAreNearlyCanonical(earlier, id);
    }
  }

  predicate HasBlank(ids: seq<string>) {
    exists x :: x in ids && Trim(x) == ""
  }

  predicate HasVisible(ids: seq<string>) {
    exists x :: x in ids && Trim(x) != ""
  }

  lemma {:induction false} AppendPresent(items: seq<string>, x: string)
    requires x in items
    ensures AppendUnique(items, [x]) == items
  {
    assert AppendUnique(items, [x]) == AppendUnique(items, []);
  }

  /** A nearly canonical employee is canonical unless its legacy ids mix blank and visible entries. */
  lemma CanonicalExactlyUnlessMixed(e: Employee)
    requires NearlyCanonical(e)
    ensures Canonical(e) == e <==> !(HasBlank(Items(e.metadata.legacyIds)) && HasVisible(Items(e.metadata.legacyIds)))
    ensures Canonical(e).id == e.id
  {
    var ids, role := Items(e.metadata.legacyIds), Trim(e.roleId);
    VisibleIsTrimmed(ids);
    VisibleOfTrimmed(ids);
    if role != "" {
      AppendPresent(e.metadata.homeRoleIds.value, role);
      AppendPresent(e.metadata.staffedRoleIds.value, role);
    }
    assert LegacyIds(e) == Visible(ids);
  }

  // --- normalizing twice ---

  /** The record has legacy ids, all of them blank, and gives up no id itself. */
  predicate KeepsBlanks(e: Employee) {
    LegacyIds(e) == [] && Items(e.metadata.legacyIds) != []
  }

  /** Two records of one employee: one keeps blank legacy ids, the other has visible ones. */
  ghost predicate Mixes(raws: seq<Raw>) {
    exists i, j :: 0 <= i < |raws| && 0 <= j < |raws| && MixesAt(raws, i, j)
  }

  predicate MixesAt(raws: seq<Raw>, i: nat, j: nat)
    requires i < |raws| && j < |raws|
  {
    && IsReal(raws[i]) && IsReal(raws[j]) && CanonicalId(raws[i].value) == CanonicalId(raws[j].value)
    && KeepsBlanks(raws[i].value) && LegacyIds(raws[j].value) != []
  }

  lemma CanonicalLegacyIds(e: Employee)
    ensures var ids := ListOf(Canonical(e), LegacyEmployeeIds);
      && (HasBlank(ids) <==> KeepsBlanks(e))
      && (HasVisible(ids) <==> LegacyIds(e) != [])
  {
    var ids, listed := ListOf(Canonical(e), LegacyEmployeeIds), Items(e.metadata.legacyIds);
    VisibleIsTrimmed(listed);
    TrimTwice(e.id);
    if ids != [] { assert ids[0] in ids; }
  }

  lemma MixingRecordsMixTheMerged(raws: seq<Raw>, i: nat, j: nat)
    requires i < |raws| && j < |raws| && MixesAt(raws, i, j)
    ensures IsMixed(Reals(raws), CanonicalId(raws[i].value))
  {
    var id := CanonicalId(raws[i].value);
    CanonicalLegacyIds(raws[i].value);
    CanonicalLegacyIds(raws[j].value);
    var x :| x in ListOf(Canonical(raws[i].value), LegacyEmployeeIds) && Trim(x) == "";
    var y :| y in ListOf(Canonical(raws[j].value), LegacyEmployeeIds) && Trim(y) != "";
    assert Contribution(id, LegacyEmployeeIds, x)(raws[i]) && Contribution(id, LegacyEmployeeIds, y)(raws[j]);
    ListsAreUnited(raws, id, LegacyEmployeeIds, x);
    ListsAreUnited(raws, id, LegacyEmployeeIds, y);
  }

  lemma MixedComesFromRecords(raws: seq<Raw>, id: string)
    requires IsMixed(Reals(raws), id)
    ensures Mixes(raws)
  {
    var ids := ListOf(Find(Reals(raws), id).value, LegacyEmployeeIds);
    var x :| x in ids && Trim(x) == "";
    var y :| y in ids && Trim(y) != "";
    ListsAreUnited(raws, id, LegacyEmployeeIds, x);
    ListsAreUnited(raws, id, LegacyEmployeeIds, y);
    var i :| 0 <= i < |raws| && Contribution(id, LegacyEmployeeIds, x)(raws[i]);
    var j :| 0 <= j < |raws| && Contribution(id, LegacyEmployeeIds, y)(raws[j]);
    CanonicalLegacyIds(raws[i].value);
    CanonicalLegacyIds(raws[j].value);
    assert MixesAt(raws, i, j);
  }

  predicate IsMixed(employees: seq<Employee>, id: string) {
    Find(employees, id).Some? && MixedLegacyIds(Find(employees, id).value)
  }

  predicate MixedLegacyIds(e: Employee) {
    HasBlank(ListOf(e, LegacyEmployeeIds)) && HasVisible(ListOf(e, LegacyEmployeeIds))
  }

  function Wrap(employees: seq<Employee>): seq<Raw> {
    seq(|employees|, i requires 0 <= i < |employees| => Some(employees[i]))
  }

  function CanonicalAll(employees: seq<Employee>): seq<Employee> {
    seq(|employees|, i requires 0 <= i < |employees| => Canonical(employees[i]))
  }

  lemma {:induction false} AbsorbNew(employees: seq<Employee>, e: Employee)
    requires forall x | x in employees :: x.id != e.id
    ensures Absorb(employees, e) == employees + [e]
  {
    if employees != [] {
      assert employees[0] in employees;
      AbsorbNew(employees[1..], e);
    }
  }

  ghost predicate AllNearlyCanonical(employees: seq<Employee>) {
    forall e | e in employees :: NearlyCanonical(e)
  }

  lemma RealsNext(raws: seq<Raw>, raw: Raw)
    ensures Reals(raws + [raw]) == if IsReal(raw) then Absorb(Reals(raws), Canonical(raw.value)) else Reals(raws)
    ensures Placeholders(raws + [raw]) ==
            if raw.Some? && raw.value.metadata.placeholder then Placeholders(raws) + [raw.value] else Placeholders(raws)
  {
    assert (raws + [raw])[..|raws|] == raws;
  }

  lemma WrapNext(employees: seq<Employee>, e: Employee)
    ensures Wrap(employees + [e]) == Wrap(employees) + [Some(e)]
  {
  }

  lemma CanonicalAllNext(employees: seq<Employee>, e: Employee)
    ensures CanonicalAll(employees + [e]) == CanonicalAll(employees) + [Canonical(e)]
  {
  }

  lemma KeepsIds(employees: seq<Employee>, e: Employee)
    requires AllNearlyCanonical(employees) && NearlyCanonical(e)
    requires forall x | x in employees :: x.id != e.id
    ensures forall x | x in CanonicalAll(employees) :: x.id != Canonical(e).id
  {
    forall i | 0 <= i < |employees| ensures Canonical(employees[i]).id != Canonical(e).id {
      assert employees[i] in employees;
    }
  }

  lemma {:induction false} RealsOfNormalized(employees: seq<Employee>)
    requires DistinctIds(employees) && AllNearlyCanonical(employees)
    ensures Reals(Wrap(employees)) == CanonicalAll(employees)
  {
    if employees != [] {
      var init, last := employees[..|employees| - 1], employees[|employees| - 1];
      assert employees == init + [last] && last in employees;
      assert forall x | x in init :: x in employees;
      RealsOfNormalized(init);
      WrapNext(init, last);
      CanonicalAllNext(init, last);
      RealsNext(Wrap(init), Some(last));
      KeepsIds(init, last);
      AbsorbNew(CanonicalAll(init), Canonical(last));
    }
  }

  lemma {:induction false} PlaceholdersArePlaceholders(raws: seq<Raw>)
    ensures forall e | e in Placeholders(raws) :: e.metadata.placeholder
  {
    if raws != [] { PlaceholdersArePlaceholders(raws[..|raws| - 1]); }
  }

  lemma {:induction false} NoPlaceholders(employees: seq<Employee>)
    requires forall e | e in employees :: !e.metadata.placeholder
    ensures Placeholders(Wrap(employees)) == []
  {
    if employees != [] {
      var init, last := employees[..|employees| - 1], employees[|employees| - 1];
      assert employees == init + [last] && last in employees;
      NoPlaceholders(init);
      WrapNext(init, last);
      RealsNext(Wrap(init), Some(last));
    }
  }

  lemma {:induction false} PlaceholdersPassThrough(employees: seq<Employee>, placeholders: seq<Employee>)
    requires forall e | e in employees :: !e.metadata.placeholder
    requires forall e | e in placeholders :: e.metadata.placeholder
    ensures Reals(Wrap(employees + placeholders)) == Reals(Wrap(employees))
    ensures Placeholders(Wrap(employees + placeholders)) == placeholders
  {
    if placeholders == [] {
      assert employees + placeholders == employees;
      NoPlaceholders(employees);
    } else {
      var init, last := placeholders[..|placeholders| - 1], placeholders[|placeholders| - 1];
      assert placeholders == init + [last] && last in placeholders;
      assert employees + placeholders == (employees + init) + [last];
      PlaceholdersPassThrough(employees, init);
      WrapNext(employees + init, last);
      RealsNext(Wrap(employees + init), Some(last));
    }
  }

  lemma KeysAreKept(lower: string -> string, a: Employee, b: Employee)
    requires NearlyCanonical(a) && NearlyCanonical(b)
    ensures KeyLe(lower, Canonical(a), Canonical(b)) == KeyLe(lower, a, b)
  {
    assert Canonical(a).id == a.id && Canonical(b).id == b.id;
  }

  lemma NeighborsStaySorted(lower: string -> string, employees: seq<Employee>, i: nat)
    requires i + 1 < |employees| && AllNearlyCanonical(employees)
    requires ByKey(lower)(employees[i], employees[i + 1])
    ensures ByKey(lower)(CanonicalAll(employees)[i], CanonicalAll(employees)[i + 1])
  {
    assert employees[i] in employees && employees[i + 1] in employees;
    KeysAreKept(lower, employees[i], employees[i + 1]);
  }

  lemma CanonicalAllIsSorted(lower: string -> string, employees: seq<Employee>)
    requires IsSorted(ByKey(lower), employees) && AllNearlyCanonical(employees)
    ensures IsSorted(ByKey(lower), CanonicalAll(employees))
  {
    forall i | 0 <= i < |employees| - 1
      ensures ByKey(lower)(CanonicalAll(employees)[i], CanonicalAll(employees)[i + 1])
    {
      NeighborsStaySorted(lower, employees, i);
    }
  }

  /** Normalizing a normalized list makes each employee canonical, and changes nothing else. */
  lemma SecondPass(lower: string -> string, raws: seq<Raw>)
    ensures var sorted := Sort(ByKey(lower), Reals(raws));
      && DistinctIds(sorted) && AllNearlyCanonical(sorted)
      && Normalized(ByKey(lower), Wrap(Normalized(ByKey(lower), raws))) == CanonicalAll(sorted) + Placeholders(raws)
  {
    var le := ByKey(lower);
    var sorted, placeholders := Sort(le, Reals(raws)), Placeholders(raws);
    RealsAreDistinct(raws);
    SortKeeps(le, Reals(raws));
    forall e | e in sorted ensures NearlyCanonical(e) {
      FindDistinct(Reals(raws), e);
      RealsAreNearlyCanonical(raws, e.id);
    }
    PlaceholdersArePlaceholders(raws);
    PlaceholdersPassThrough(sorted, placeholders);
    RealsOfNormalized(sorted);
    ByKeyIsTotal(lower);
    SortSorts(le, Reals(raws));
    CanonicalAllIsSorted(lower, sorted);
    SortedIsKept(le, CanonicalAll(sorted));
  }

  lemma CanonicalAllExactlyUnlessMixed(employees: seq<Employee>)
    requires AllNearlyCanonical(employees)
    ensures CanonicalAll(employees) == employees <==> forall e | e in employees :: !MixedLegacyIds(e)
  {
    forall i | 0 <= i < |employees| ensures CanonicalAll(employees)[i] == employees[i] <==> !MixedLegacyIds(employees[i]) {
      assert employees[i] in employees;
      CanonicalExactlyUnlessMixed(employees[i]);
    }
    if CanonicalAll(employees) == employees {
      forall e | e in employees ensures !MixedLegacyIds(e) {
        var i :| 0 <= i < |employees| && employees[i] == e;
        assert CanonicalAll(employees)[i] == employees[i];
      }
    } else {
      var i :| 0 <= i < |employees| && CanonicalAll(employees)[i] != employees[i];
      assert employees[i] in employees;
    }
  }

  lemma MixesExactlyIfMergedMix(raws: seq<Raw>)
    ensures Mixes(raws) <==> exists e :: e in Reals(raws) && MixedLegacyIds(e)
  {
    RealsAreDistinct(raws);
    if Mixes(raws) {
      var i, j :| 0 <= i < |raws| && 0 <= j < |raws| && MixesAt(raws, i, j);
      MixingRecordsMixTheMerged(raws, i, j);
      FindIsThere(Reals(raws), CanonicalId(raws[i].value));
    }
    if e :| e in Reals(raws) && MixedLegacyIds(e) {
      FindDistinct(Reals(raws), e);
      MixedComesFromRecords(raws, e.id);
    }
  }

  lemma SameTail(a: seq<Employee>, b: seq<Employee>, tail: seq<Employee>)
    requires |a| == |b|
    ensures a + tail == b + tail <==> a == b
  {
    if a + tail == b + tail { assert (a + tail)[..|a|] == a && (b + tail)[..|b|] == b; }
  }

  /**
  Normalizing twice is normalizing once, unless two records of one employee mix blank and visible
  legacy ids.  In particular it is whenever no legacy id is blank.
  */
  lemma NormalizingTwiceIsOnce(lower: string -> string, raws: seq<Raw>)
    ensures var once := Normalized(ByKey(lower), raws);
      Normalized(ByKey(lower), Wrap(once)) == once <==> !Mixes(raws)
  {
    var sorted := Sort(ByKey(lower), Reals(raws));
    SecondPass(lower, raws);
    SameTail(CanonicalAll(sorted), sorted, Placeholders(raws));
    CanonicalAllExactlyUnlessMixed(sorted);
    SortKeeps(ByKey(lower), Reals(raws));
    MixesExactlyIfMergedMix(raws);
  }

  /** A record with one blank legacy id, and one of the same employee with a visible one. */
  lemma BlankLegacyIdsShowUpLater(lower: string -> string, a: Employee, b: Employee)
    requires !a.metadata.placeholder && !b.metadata.placeholder
    requires CanonicalId(a) == CanonicalId(b) == Trim(a.id)
    requires a.metadata.legacyIds == Some([""]) && b.metadata.legacyIds == Some(["x"])
    ensures var once := Normalized(ByKey(lower), [Some(a), Some(b)]); Normalized(ByKey(lower), Wrap(once)) != once
  {
    TrimIsTrimmed("");
    TrimIsTrimmed("x");
    VisibleIsTrimmed([""]);
    assert Trim("x") == "x" && Visible(["x"]) == ["x"] + Visible([]);
    assert MixesAt([Some(a), Some(b)], 0, 1);
    NormalizingTwiceIsOnce(lower, [Some(a), Some(b)]);
  }

  /** The normalized employees have distinct ids, in the order of their keys, with the placeholders behind. */
  lemma NormalizedIsWellFormed(lower: string -> string, raws: seq<Raw>)
    ensures var sorted := Sort(ByKey(lower), Reals(raws));
      && Normalized(ByKey(lower), raws) == sorted + Placeholders(raws)
      && DistinctIds(sorted) && IsSorted(ByKey(lower), sorted)
      && (forall e :: e in sorted <==> e in Reals(raws))
      && (forall e | e in sorted :: !e.metadata.placeholder)
      && (forall e | e in Placeholders(raws) :: e.metadata.placeholder)
  {
    SecondPass(lower, raws);
    ByKeyIsTotal(lower);
    SortSorts(ByKey(lower), Reals(raws));
    SortKeeps(ByKey(lower), Reals(raws));
    PlaceholdersArePlaceholders(raws);
  }

  /** Every alias leads from a visible id to an employee of the normalized list. */
  lemma {:induction false} AliasesLeadToEmployees(raws: seq<Raw>, legacy: string)
    requires legacy in AllAliases(raws)
    ensures legacy != "" && Find(Reals(raws), AllAliases(raws)[legacy]).Some?
  {
    var earlier, last := raws[..|raws| - 1], raws[|raws| - 1];
    if IsReal(last) {
      var e := Canonical(last.value);
      VisibleIsTrimmed(Items(last.value.metadata.legacyIds));
      FindAfterAbsorb(Reals(earlier), e, AllAliases(raws)[legacy]);
      if legacy !in AliasesOf(last.value) {
        AliasesLeadToEmployees(earlier, legacy);
      }
    } else {
      AliasesLeadToEmployees(earlier, legacy);
    }
  }

  lemma {:induction false} VisibleHas(ids: seq<string>, x: string)
    requires x in ids && Trim(x) != ""
    ensures Trim(x) in Visible(ids)
  {
    if ids[0] != x {
      VisibleHas(ids[1..], x);
    }
  }

  /** Every visible legacy id is an alias, and so is every id that an employee gives up for its template. */
  lemma {:induction false} GivenUpIdsBecomeAliases(raws: seq<Raw>, i: nat, x: string)
    requires i < |raws| && IsReal(raws[i]) && Trim(x) != ""
    requires x in Items(raws[i].value.metadata.legacyIds) ||
             (x == raws[i].value.id && Trim(x) != CanonicalId(raws[i].value))
    ensures Trim(x) in AllAliases(raws)
  {
    var earlier, last := raws[..|raws| - 1], raws[|raws| - 1];
    if i < |raws| - 1 {
      GivenUpIdsBecomeAliases(earlier, i, x);
    } else {
      if x in Items(last.value.metadata.legacyIds) { VisibleHas(Items(last.value.metadata.legacyIds), x); }
      assert Trim(x) in LegacyIds(last.value);
    }
  }

  lemma {:induction false} TextLeIsReflexive(a: string)
    ensures TextLe(a, a)
  {
    if a != "" {
      TextLeIsReflexive(a[1..]);
    }
  }

  /** Sorted employees go by category, within it by lower-case name, and within that by id. */
  lemma SortedByCategoryThenName(lower: string -> string, employees: seq<Employee>, i: nat)
    requires IsSorted(ByKey(lower), employees) && i + 1 < |employees|
    ensures var a, b := employees[i], employees[i + 1];
      && TextLe(a.category, b.category)
      && (a.category == b.category ==> TextLe(lower(a.name), lower(b.name)))
      && (a.category == b.category && lower(a.name) == lower(b.name) ==> TextLe(a.id, b.id))
  {
    assert ByKey(lower)(employees[i], employees[i + 1]);
    TextLeIsReflexive(employees[i].category);
    TextLeIsReflexive(lower(employees[i].name));
  }
}
