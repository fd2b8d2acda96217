/** Employee records: their canonical form, merging two of one id, and normalizing a list of them. */
module EmployeeRecords {
  import opened Wrappers
  import opened Text
  import opened Json

  /** The metadata of an employee; `placeholder` is set when one of the default or fallback flags is. */
  datatype Metadata = Metadata(
    legacyIds: Option<seq<string>>, homeRoleIds: Option<seq<string>>, staffedRoleIds: Option<seq<string>>,
    homeRoleId: Option<string>, canonicalId: Option<string>, placeholder: bool, rest: map<string, Json>)

  datatype Employee = Employee(
    id: string, templateId: string, name: string, roleId: string, description: string, category: string,
    domains: seq<string>, tags: seq<string>, promptRefs: seq<string>, skillRefs: seq<string>,
    agent: string, seniority: string, status: string, metadata: Metadata)

  /** A record handed to the registry; None is one that is no employee. */
  type Raw = Option<Employee>

  type Aliases = map<string, string>

  // --- merging ---

  /** `_append_unique` */
  function AppendUnique<T(==)>(items: seq<T>, additions: seq<T>): seq<T>
    decreases |additions|
  {
    if additions == [] then items
    else AppendUnique(if additions[0] in items then items else items + [additions[0]], additions[1..])
  }

  function Items(list: Option<seq<string>>): seq<string> {
    if list.Some? then list.value else []
  }

  /** List-valued metadata: the union, as soon as the incoming record has the key. */
  function MergeLists(base: Option<seq<string>>, incoming: Option<seq<string>>): Option<seq<string>> {
    if incoming.None? then base else Some(AppendUnique(Items(base), incoming.value))
  }

  function MergeText(base: Option<string>, incoming: Option<string>): Option<string> {
    if incoming.Some? && (base.None? || base.value == "") then incoming else base
  }

  /** `_is_empty_value` */
  predicate IsEmptyValue(v: Json) {
    v == Null || v == Str("") || v == List([]) || v == Record(End)
  }

  /** `nested.update(value)` */
  function Update(base: Fields, incoming: Fields): Fields
    decreases incoming
  {
    match incoming
    case End => base
    case Field(key, value, rest) => Update(Put(base, key, value), rest)
  }

  function MergeValue(base: Json, incoming: Json): Json {
    if IsEmptyValue(base) then incoming
    else if base.Record? && incoming.Record? then Record(Update(base.fields, incoming.fields))
    else base
  }

  function MergeRest(base: map<string, Json>, incoming: map<string, Json>): map<string, Json> {
    map key | key in base.Keys + incoming.Keys ::
      if key !in incoming then base[key]
      else if key !in base then incoming[key]
      else MergeValue(base[key], incoming[key])
  }

  /** `_merge_metadata` of two employees that are no placeholders. */
  function MergeMetadata(base: Metadata, incoming: Metadata): Metadata {
    Metadata(
      MergeLists(base.legacyIds, incoming.legacyIds),
      MergeLists(base.homeRoleIds, incoming.homeRoleIds),
      MergeLists(base.staffedRoleIds, incoming.staffedRoleIds),
      MergeText(base.homeRoleId, incoming.homeRoleId),
      MergeText(base.canonicalId, incoming.canonicalId),
      base.placeholder || incoming.placeholder,
      MergeRest(base.rest, incoming.rest))
  }

  /** `_merge_employee`: lists are united, gaps are filled, and the longer description wins. */
  function Merge(base: Employee, incoming: Employee): Employee {
    Employee(
      base.id,
      OrElse(base.templateId, incoming.templateId),
      OrElse(base.name, incoming.name),
      OrElse(base.roleId, incoming.roleId),
      if |incoming.description| > |base.description| then incoming.description else base.description,
      OrElse(base.category, incoming.category),
      AppendUnique(base.domains, incoming.domains),
      AppendUnique(base.tags, incoming.tags),
      AppendUnique(base.promptRefs, incoming.promptRefs),
      AppendUnique(base.skillRefs, incoming.skillRefs),
      OrElse(base.agent, incoming.agent),
      OrElse(base.seniority, incoming.seniority),
      OrElse(base.status, incoming.status),
      MergeMetadata(base.metadata, incoming.metadata))
  }

  // --- the canonical form ---

  /** Template-backed employees go by their template. */
  function CanonicalId(e: Employee): string {
    OrElse(Trim(e.templateId), Trim(e.id))
  }

  /** The entries that are not blank, stripped. */
  function Visible(ids: seq<string>): seq<string> {
    if ids == [] then []
    else (if Trim(ids[0]) == "" then [] else [Trim(ids[0])]) + Visible(ids[1..])
  }

  /** The visible legacy ids, and the id that the employee gives up. */
  function LegacyIds(e: Employee): seq<string> {
    var listed, own := Visible(Items(e.metadata.legacyIds)), Trim(e.id);
    if own != "" && own != CanonicalId(e) && own !in listed then listed + [own] else listed
  }

  function WithRole(list: Option<seq<string>>, role: string): Option<seq<string>> {
    if role == "" then list else Some(AppendUnique(Items(list), [role]))
  }

  function SetDefault(text: Option<string>, wanted: bool, value: string): Option<string> {
    if wanted && text.None? then Some(value) else text
  }

  function CanonicalMetadata(e: Employee): Metadata {
    var legacy, role := LegacyIds(e), Trim(e.roleId);
    Metadata(
      if legacy == [] then e.metadata.legacyIds else Some(legacy),
      WithRole(e.metadata.homeRoleIds, role),
      WithRole(e.metadata.staffedRoleIds, role),
      SetDefault(e.metadata.homeRoleId, role != "", role),
      SetDefault(e.metadata.canonicalId, Trim(e.templateId) != "", CanonicalId(e)),
      e.metadata.placeholder,
      e.metadata.rest)
  }

  /** `_canonicalize_employee` of an employee that is no placeholder. */
  function Canonical(e: Employee): Employee {
    e.(id := CanonicalId(e), metadata := CanonicalMetadata(e))
  }

  function AliasesOf(e: Employee): Aliases {
    map legacy | legacy in LegacyIds(e) :: CanonicalId(e)
  }

  // --- normalizing ---

  function Find(employees: seq<Employee>, id: string): Option<Employee> {
    if employees == [] then None
    else if employees[0].id == id then Some(employees[0]) else Find(employees[1..], id)
  }

  /** Merges a canonical employee into the one of its id, or adds it at the end. */
  function Absorb(employees: seq<Employee>, e: Employee): seq<Employee> {
    if employees == [] then [e]
    else if employees[0].id == e.id then [Merge(employees[0], e)] + employees[1..]
    else [employees[0]] + Absorb(employees[1..], e)
  }

  predicate IsReal(raw: Raw) {
    raw.Some? && !raw.value.metadata.placeholder
  }

  /** The merged real employees, in the order in which their ids came up. */
  function Reals(raws: seq<Raw>): seq<Employee> {
    if raws == [] then []
    else
      var earlier, last := Reals(raws[..|raws| - 1]), raws[|raws| - 1];
      if IsReal(last) then Absorb(earlier, Canonical(last.value)) else earlier
  }

  function Placeholders(raws: seq<Raw>): seq<Employee> {
    if raws == [] then []
    else
      var earlier, last := Placeholders(raws[..|raws| - 1]), raws[|raws| - 1];
      if last.Some? && last.value.metadata.placeholder then earlier + [last.value] else earlier
  }

  function AllAliases(raws: seq<Raw>): Aliases {
    if raws == [] then map[]
    else
      var earlier, last := AllAliases(raws[..|raws| - 1]), raws[|raws| - 1];
      if IsReal(last) then earlier + AliasesOf(last.value) else earlier
  }

  /** Sorting by insertion, with any comparison. */
  function Insert(le: (Employee, Employee) -> bool, e: Employee, sorted: seq<Employee>): seq<Employee> {
    if sorted == [] || le(e, sorted[0]) then [e] + sorted else [sorted[0]] + Insert(le, e, sorted[1..])
  }

  function Sort(le: (Employee, Employee) -> bool, employees: seq<Employee>): seq<Employee> {
    if employees == [] then [] else Insert(le, employees[0], Sort(le, employees[1..]))
  }

  /** `normalize_employee_records`, without the aliases. */
  function Normalized(le: (Employee, Employee) -> bool, raws: seq<Raw>): seq<Employee> {
    Sort(le, Reals(raws)) + Placeholders(raws)
  }

  // --- the sort key ---

  /** The order of strings by their characters. */
  predicate TextLe(a: string, b: string) {
    a == "" || (b != "" && (a[0] < b[0] || (a[0] == b[0] && TextLe(a[1..], b[1..]))))
  }

  /** Category, then lower-case name, then id. */
  predicate KeyLe(lower: string -> string, a: Employee, b: Employee) {
    if a.category != b.category then TextLe(a.category, b.category)
    else if lower(a.name) != lower(b.name) then TextLe(lower(a.name), lower(b.name))
    else TextLe(a.id, b.id)
  }

  function ByKey(lower: string -> string): (Employee, Employee) -> bool {
    (a, b) => KeyLe(lower, a, b)
  }
}
