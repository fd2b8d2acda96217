/**
The stored company organizations on values: one file per organization id, the active-organization
index, the employee registry, and what loading an organization makes of them.
*/
module CompanyOrgs {
  import opened Wrappers
  import opened Text
  import opened Json
  import Ids = OrganizationIds
  import Allocation = IdAllocation

  const CORPORATE := "corporate"
  const CORPORATE_CUSTOM := "corporate_custom"
  const ORGS_DIR := "company_orgs/"
  const CUSTOM_PROFILE := "custom"
  const KIND := "opc_org_architecture"
  const SCHEMA_VERSION := 2

  /** `schema_version` as stored; `Bad` is a value that `int` refuses. */
  datatype Schema = Missing | Version(n: int) | Bad

  datatype Company = Company(name: Option<string>, profile: Option<string>, rest: map<string, Json>)

  /** An organization file: the parts that loading looks into, and the `rest`. */
  datatype Payload = Payload(
    schema: Schema, kind: Option<string>, id: string, name: Option<string>, company: Company,
    roles: Option<Json>, employees: seq<Json>, templates: seq<Json>,
    source: Option<string>, configFile: Option<string>, rest: map<string, Json>)

  /** A YAML file: a mapping, or something that cannot be read as one. */
  datatype File<T> = Readable(value: T) | Unreadable

  datatype Index = Index(schema: Schema, active: string)

  /** A file of the legacy organizations directory. */
  datatype Legacy = Legacy(stem: string, file: File<Payload>)

  type Roster = seq<Json>

  /** The files that loading may write. */
  datatype Store = Store(orgs: map<string, File<Payload>>, index: Option<File<Index>>, rosters: map<string, Roster>)

  /**
  What loading reads and never writes: the legacy organizations in file-name order, and what the legacy
  corporate files amount to (None when one of them cannot be read or is too new); and library functions.
  */
  datatype Env = Env(
    slugs: Ids.Tools,
    isCustom: string -> bool,
    enroll: (Roster, seq<Json>) -> Roster,
    bodyDefaults: map<string, Json>, companyDefaults: map<string, Json>, legacyDefaults: map<string, Json>,
    legacyOrgs: seq<Legacy>, legacyCorporate: Option<Payload>)

  datatype Error = BadFile | UnsupportedSchema | UnsupportedKind | InvalidId | BadIndexSchema | BadLegacy | NotFound

  function Str(s: Option<string>): string {
    if s.Some? then s.value else ""
  }

  function SetDefault<T>(s: Option<T>, default: T): Option<T> {
    if s.Some? then s else Some(default)
  }

  function SchemaOf(s: Schema): Option<int> {
    match s
    case Missing => Some(1)
    case Version(n) => Some(if n == 0 then 1 else n)
    case Bad => None
  }

  /** `_validate_company_org_payload` */
  function Validate(p: Payload): Result<Payload, Error> {
    var schema := SchemaOf(p.schema);
    if schema.None? || schema.value > SCHEMA_VERSION then Err(UnsupportedSchema)
    else if schema.value >= SCHEMA_VERSION && Trim(Str(p.kind)) != "" && Trim(Str(p.kind)) != KIND then
      Err(UnsupportedKind)
    else Ok(p.(schema := Version(schema.value)))
  }

  function ReadValid(file: File<Payload>): Result<Payload, Error> {
    if file.Unreadable? then Err(BadFile) else Validate(file.value)
  }

  /** `_company_payload_profile(...) == "custom"`, up to case and surrounding space. */
  predicate IsCustom(env: Env, p: Payload) {
    env.isCustom(Str(p.company.profile))
  }

  /** The payload as it is filed under `id`: employees live in the registry, not in the file. */
  function Filed(p: Payload, id: string): Payload {
    p.(id := id,
       schema := if p.schema.Missing? then Version(SCHEMA_VERSION) else p.schema,
       kind := SetDefault(p.kind, KIND),
       employees := [], templates := [],
       configFile := Some(ORGS_DIR + Allocation.FileName(Allocation.ORG_FILES, id)))
  }

  function RosterOf(s: Store, id: string): Roster {
    if id in s.rosters then s.rosters[id] else []
  }

  /** `write_company_org_payload` */
  function WriteOrg(env: Env, s: Store, id: string, p: Payload): Result<Store, Error> {
    if !Allocation.IsValidId(id) then Err(InvalidId)
    else
      Ok(s.(orgs := s.orgs[id := Readable(Filed(p, id))],
            rosters := if p.employees == [] then s.rosters
                       else s.rosters[id := env.enroll(RosterOf(s, id), p.employees)]))
  }

  // --- migrations ---

  function LegacyId(env: Env, legacy: Legacy): string
    requires legacy.file.Readable?
  {
    var raw := Trim(legacy.file.value.id);
    if Allocation.IsValidId(raw) then raw else Ids.Slugify(env.slugs, legacy.stem, "org")
  }

  function LegacyName(legacy: Legacy): string
    requires legacy.file.Readable?
  {
    var p := legacy.file.value;
    Trim(OrElse(Str(p.name), OrElse(Str(p.company.name), legacy.stem)))
  }

  function LegacyPayload(env: Env, legacy: Legacy): Payload
    requires legacy.file.Readable?
  {
    var p, name := legacy.file.value, LegacyName(legacy);
    var company :=
      p.company.(name := SetDefault(p.company.name, name), profile := SetDefault(p.company.profile, CUSTOM_PROFILE));
    p.(schema := Version(SCHEMA_VERSION), kind := Some(KIND), id := LegacyId(env, legacy), name := Some(name),
       company := company, roles := SetDefault(p.roles, List([])), templates := [],
       source := Some("legacy_saved_org_migration"), rest := env.legacyDefaults + p.rest)
  }

  /** One legacy organization, unless it cannot be read or its id is taken. */
  function MigrateOne(env: Env, s: Store, legacy: Legacy): Store {
    if legacy.file.Unreadable? || LegacyId(env, legacy) in s.orgs then s
    else
      var written := WriteOrg(env, s, LegacyId(env, legacy), LegacyPayload(env, legacy));
      if written.Ok? then written.value else s
  }

  /** `_migrate_legacy_saved_orgs`, for the first `n` legacy files. */
  function MigrateFirst(env: Env, s: Store, n: nat): Store
    requires n <= |env.legacyOrgs|
  {
    if n == 0 then s else MigrateOne(env, MigrateFirst(env, s, n - 1), env.legacyOrgs[n - 1])
  }

  function Migrate(env: Env, s: Store): Store {
    MigrateFirst(env, s, |env.legacyOrgs|)
  }

  /** The active organization is the corporate one. */
  predicate ActiveIsCorporate(s: Store) {
    s.index.Some? && s.index.value.Readable? && Trim(s.index.value.value.active) == CORPORATE
  }

  /** `_repoint_org_index_if_active_corporate` */
  function Repoint(s: Store, id: string): Result<Store, Error> {
    if !ActiveIsCorporate(s) then Ok(s)
    else
      var schema := SchemaOf(s.index.value.value.schema);
      if schema.None? then Err(BadIndexSchema) else Ok(s.(index := Some(Readable(Index(Version(schema.value), id)))))
  }

  /** The id under which a custom organization leaves the corporate slot. */
  function ArchiveId(s: Store): string {
    Allocation.Free(s.orgs.Keys, CORPORATE_CUSTOM)
  }

  function ArchiveName(p: Payload): string {
    Trim(OrElse(Str(p.name), OrElse(Str(p.company.name), "Corporate Custom")))
  }

  function Archived(p: Payload): Payload {
    p.(name := Some(ArchiveName(p)),
       company := p.company.(profile := Some(CUSTOM_PROFILE)),
       source := Some("archived_custom_corporate_conflict"))
  }

  /**
  `_archive_conflicting_corporate_org_config` of a readable custom payload, under the allocated id; what
  is written stays when it fails.
  */
  function Archive(env: Env, s: Store, id: string, p: Payload): (Store, Option<Error>) {
    var written := WriteOrg(env, s, id, Archived(p));
    if written.Err? then (s, Some(written.error))
    else
      var repointed := Repoint(written.value, id);
      if repointed.Err? then (written.value, Some(repointed.error)) else (repointed.value, None)
  }

  /** `_normalize_corporate_company_org_payload` */
  function Normalized(env: Env, p: Payload): Payload {
    var name := Trim(OrElse(Str(p.name), OrElse(Str(p.company.name), "My One-Person Company")));
    p.(id := CORPORATE, name := Some(name),
       company := Company(
         Some(OrElse(Trim(OrElse(Str(p.company.name), name)), name)), Some(CORPORATE),
         env.companyDefaults + p.company.rest),
       roles := SetDefault(p.roles, List([])), templates := [], rest := env.bodyDefaults + p.rest)
  }

  // --- loading ---

  /** The store after loading, and what was loaded. */
  datatype Loaded = Loaded(store: Store, outcome: Result<Payload, Error>)

  predicate NeedsExternalization(p: Payload) {
    p.employees != [] || p.templates != []
  }

  /** Write, read back and validate. */
  function Persist(env: Env, s: Store, id: string, p: Payload): Loaded {
    var written := WriteOrg(env, s, id, p);
    if written.Err? then Loaded(s, Err(written.error))
    else Loaded(written.value, Validate(Filed(p, id)))
  }

  /** A custom organization sits in the corporate slot: it is archived, and the legacy corporate payload moves in. */
  function LoadConflicting(env: Env, s: Store, id: string, p: Payload): Loaded {
    var (archived, failure) := Archive(env, s, id, p);
    if failure.Some? then Loaded(archived, Err(failure.value))
    else if env.legacyCorporate.None? then Loaded(archived, Err(BadLegacy))
    else
      var payload := Normalized(env, env.legacyCorporate.value);
      var written := WriteOrg(env, archived, CORPORATE, payload);
      if written.Err? then Loaded(archived, Err(written.error)) else Loaded(written.value, Ok(payload))
  }

  /** The payload that the file of `id` stands for, once it is known that no conflict has to be archived. */
  function Effective(env: Env, id: string, p: Payload): Option<Payload> {
    if id != CORPORATE then Some(p)
    else if !IsCustom(env, p) then Some(Normalized(env, p))
    else if env.legacyCorporate.Some? then Some(Normalized(env, env.legacyCorporate.value))
    else None
  }

  function LoadStored(env: Env, s: Store, id: string, p: Payload, persist: bool): Loaded {
    if id == CORPORATE && IsCustom(env, p) && persist then LoadConflicting(env, s, ArchiveId(s), p)
    else
      var payload := Effective(env, id, p);
      if payload.None? then Loaded(s, Err(BadLegacy))
      else if persist && NeedsExternalization(payload.value) then Persist(env, s, id, payload.value)
      else Loaded(s, Ok(payload.value))
  }

  function LoadMissing(env: Env, s: Store, id: string, persist: bool): Loaded {
    if id != CORPORATE then Loaded(s, Err(NotFound))
    else if env.legacyCorporate.None? then Loaded(s, Err(BadLegacy))
    else
      var payload := Normalized(env, env.legacyCorporate.value);
      if persist then Persist(env, s, CORPORATE, payload) else Loaded(s, Validate(payload))
  }

  /** `load_company_org_payload`; `persist` says whether migrations may be written. */
  function Load(env: Env, s: Store, id: string, persist: bool): Loaded {
    LoadMigrated(env, if persist then Migrate(env, s) else s, id, persist)
  }

  function LoadMigrated(env: Env, s: Store, id: string, persist: bool): Loaded {
    if id !in s.orgs then LoadMissing(env, s, id, persist)
    else
      var p := ReadValid(s.orgs[id]);
      if p.Err? then Loaded(s, Err(p.error)) else LoadStored(env, s, id, p.value, persist)
  }
}
