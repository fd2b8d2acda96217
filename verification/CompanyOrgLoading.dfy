/** What loading an organization returns, and with which error it fails. */
module CompanyOrgLoading {
  import opened Wrappers
  import opened Text
  import opened Json
  import opened CompanyOrgs
  import opened CompanyOrgTheorems
  import Ids = OrganizationIds
  import Allocation = IdAllocation

  // --- which files can be read ---

  /** The number of a schema version: a missing one and 0 count as 1. */
  predicate IsSchemaNumber(schema: Schema, n: int) {
    match schema
    case Missing => n == 1
    case Version(v) => n == (if v == 0 then 1 else v)
    case Bad => false
  }

  /** The schema version is a number of at most 2. */
  predicate IsSupported(p: Payload) {
    p.schema.Missing? || (p.schema.Version? && p.schema.n <= 2)
  }

  /** From schema version 2 on a kind that is given has to be the right one. */
  predicate IsOfKind(p: Payload) {
    p.schema.Version? && p.schema.n == 2 && p.kind.Some? ==>
      (forall c | c in p.kind.value :: IsSpace(c)) || Trim(p.kind.value) == "opc_org_architecture"
  }

  /** The file can be read: its schema is supported, and its kind is right. */
  predicate IsLoadable(p: Payload) {
    IsSupported(p) && IsOfKind(p)
  }

  /** Filing fills in a schema version that is missing, and then the kind counts. */
  function AsFiled(p: Payload): Payload {
    p.(schema := if p.schema.Missing? then Version(2) else p.schema)
  }

  lemma KindIsBlank(p: Payload)
    ensures Trim(CompanyOrgs.Str(p.kind)) == "" <==> p.kind.None? || forall c | c in p.kind.value :: IsSpace(c)
  {
    TrimIsBlank(CompanyOrgs.Str(p.kind));
  }

  /** Reading a file only fills in its schema number. */
  lemma ReadingIsExact(file: File<Payload>)
    ensures file.Unreadable? ==> ReadValid(file) == Err(BadFile)
    ensures file.Readable? && !IsSupported(file.value) ==> ReadValid(file) == Err(UnsupportedSchema)
    ensures file.Readable? && IsSupported(file.value) && !IsOfKind(file.value) ==> ReadValid(file) == Err(UnsupportedKind)
    ensures file.Readable? && IsSupported(file.value) && IsOfKind(file.value) ==>
      exists n :: IsSchemaNumber(file.value.schema, n) && ReadValid(file) == Ok(file.value.(schema := Version(n)))
  {
    if file.Readable? {
      KindIsBlank(file.value);
      if file.value.schema.Missing? { assert IsSchemaNumber(file.value.schema, 1); }
      if file.value.schema.Version? {
        assert IsSchemaNumber(file.value.schema, if file.value.schema.n == 0 then 1 else file.value.schema.n);
      }
    }
  }

  // --- organizations of their own ---

  /** `q` has everything of `p` that an organization is about. */
  predicate SaysTheSame(q: Payload, p: Payload) {
    q.roles == p.roles && q.name == p.name && q.company == p.company && q.source == p.source && q.rest == p.rest
  }

  /** The files that a load starts from. */
  function Before(env: Env, s: Store, persist: bool): Store {
    if persist then Migrate(env, s) else s
  }

  lemma ValidExactly(p: Payload)
    ensures Validate(p).Ok? <==> IsLoadable(p)
  {
    KindIsBlank(p);
  }

  lemma FiledIsLoadable(p: Payload, id: string)
    ensures IsLoadable(Filed(p, id)) <==> IsLoadable(AsFiled(p))
  {
    assert KIND == "opc_org_architecture";
    TrimIsTrimmed(KIND);
  }

  lemma FiledIsRead(p: Payload, id: string)
    requires ReadValid(Readable(p)) == Ok(p)
    ensures Validate(Filed(p, id)) == Ok(Filed(p, id))
  {
  }

  lemma ReadIsRead(file: File<Payload>)
    requires ReadValid(file).Ok?
    ensures ReadValid(Readable(ReadValid(file).value)) == ReadValid(file)
  {
  }

  /**
  Loading an organization other than the corporate one returns what its file says, with the schema number;
  employees and templates that the file still held move out of it, and it is returned as it is now filed.
  */
  lemma OwnFileIsReturned(env: Env, s: Store, id: string, persist: bool)
    requires id != CORPORATE && Allocation.IsValidId(id)
    ensures var before, after := Before(env, s, persist), Load(env, s, id, persist);
      if id !in before.orgs then after == Loaded(before, Err(NotFound))
      else
        var read := ReadValid(before.orgs[id]);
        if read.Err? then after == Loaded(before, Err(read.error))
        else if !persist || (read.value.employees == [] && read.value.templates == []) then after == Loaded(before, read)
        else
          && after.outcome.Ok? && SaysTheSame(after.outcome.value, read.value)
          && after.outcome.value.id == id && after.outcome.value.employees == [] && after.outcome.value.templates == []
          && id in after.store.orgs && after.store.orgs[id] == Readable(after.outcome.value)
  {
    var before := Before(env, s, persist);
    if id in before.orgs && ReadValid(before.orgs[id]).Ok? {
      ReadIsRead(before.orgs[id]);
      FiledIsRead(ReadValid(before.orgs[id]).value, id);
    }
  }

  // --- the corporate organization ---

  /** The first of two names that is not empty, or the given one. */
  predicate IsFirstName(name: string, first: Option<string>, second: Option<string>, third: string) {
    if first.Some? && first.value != "" then name == first.value
    else if second.Some? && second.value != "" then name == second.value
    else name == third
  }

  predicate IsVisible(text: Option<string>) {
    text.Some? && exists c :: c in text.value && !IsSpace(c)
  }

  lemma CorporateName(env: Env, base: Payload)
    ensures var q := Normalized(env, base);
      if IsVisible(base.company.name) then q.company.name == Some(Trim(base.company.name.value))
      else q.company.name == q.name
  {
    var name := Normalized(env, base).name.value;
    TrimIsTrimmed(OrElse(CompanyOrgs.Str(base.name), OrElse(CompanyOrgs.Str(base.company.name), "My One-Person Company")));
    TrimIsTrimmed(name);
    if base.company.name.Some? { TrimIsBlank(base.company.name.value); }
  }

  /** `after` has what `before` has, and the defaults for the rest. */
  predicate IsFilledUp(after: map<string, Json>, before: map<string, Json>, defaults: map<string, Json>) {
    && after.Keys == before.Keys + defaults.Keys
    && (forall k | k in before :: after[k] == before[k])
    && (forall k | k in defaults && k !in before :: after[k] == defaults[k])
  }

  /** `q` is the corporate organization that `base` stands for. */
  ghost predicate IsCorporateForm(env: Env, base: Payload, q: Payload) {
    && q.id == CORPORATE && q.company.profile == Some(CORPORATE) && q.templates == []
    && q.roles == (if base.roles.Some? then base.roles else Some(List([])))
    && q.source == base.source
    && (exists name :: IsFirstName(name, base.name, base.company.name, "My One-Person Company") && q.name == Some(Trim(name)))
    && (if IsVisible(base.company.name) then q.company.name == Some(Trim(base.company.name.value))
        else q.company.name == q.name)
    && IsFilledUp(q.rest, base.rest, env.bodyDefaults)
    && IsFilledUp(q.company.rest, base.company.rest, env.companyDefaults)
  }

  lemma NormalizedIsCorporate(env: Env, base: Payload)
    ensures var q := Normalized(env, base);
      IsCorporateForm(env, base, q) && q.employees == base.employees && q.schema == base.schema && q.kind == base.kind
  {
    hide TrimLeft, TrimRight;
    var name := OrElse(CompanyOrgs.Str(base.name), OrElse(CompanyOrgs.Str(base.company.name), "My One-Person Company"));
    assert IsFirstName(name, base.name, base.company.name, "My One-Person Company");
    CorporateName(env, base);
  }

  lemma FiledIsCorporate(env: Env, base: Payload, q: Payload)
    requires IsCorporateForm(env, base, q)
    ensures IsCorporateForm(env, base, Filed(q, CORPORATE)) && Filed(q, CORPORATE).employees == []
  {
  }

  /** What the corporate slot stands for: its file, unless there is none or it holds a custom organization. */
  function BaseOf(env: Env, before: Store): Option<Payload> {
    if CORPORATE in before.orgs && ReadValid(before.orgs[CORPORATE]).Ok?
       && !env.isCustom(CompanyOrgs.Str(ReadValid(before.orgs[CORPORATE]).value.company.profile))
    then Some(ReadValid(before.orgs[CORPORATE]).value)
    else env.legacyCorporate
  }

  /** A loaded corporate file that is not custom is returned in corporate form. */
  lemma CorporateFileIsReturned(env: Env, s: Store, persist: bool)
    requires var before := Before(env, s, persist);
      CORPORATE in before.orgs && ReadValid(before.orgs[CORPORATE]).Ok?
      && !env.isCustom(CompanyOrgs.Str(ReadValid(before.orgs[CORPORATE]).value.company.profile))
    ensures var before, after := Before(env, s, persist), Load(env, s, CORPORATE, persist);
      var p := ReadValid(before.orgs[CORPORATE]).value;
      && after.outcome.Ok? && IsCorporateForm(env, p, after.outcome.value)
      && after.outcome.value.employees == (if persist then [] else p.employees)
      && (!persist || p.employees == [] ==> after.store == before)
      && (persist && p.employees != [] ==>
            CORPORATE in after.store.orgs && after.store.orgs[CORPORATE] == Readable(after.outcome.value))
  {
    var before := Before(env, s, persist);
    var p := ReadValid(before.orgs[CORPORATE]).value;
    var q := Normalized(env, p);
    BuiltInIdsAreValid();
    NormalizedIsCorporate(env, p);
    ReadIsRead(before.orgs[CORPORATE]);
    FiledIsRead(q, CORPORATE);
    FiledIsCorporate(env, p, q);
  }

  lemma CorporateIsFiled(env: Env, s: Store, base: Payload)
    ensures var after := Persist(env, s, CORPORATE, Normalized(env, base));
      && (after.outcome.Ok? <==> IsLoadable(AsFiled(base)))
      && (after.outcome.Ok? ==> IsCorporateForm(env, base, after.outcome.value))
      && CORPORATE in after.store.orgs && after.store.orgs[CORPORATE].Readable?
      && IsCorporateForm(env, base, after.store.orgs[CORPORATE].value)
  {
    var q := Normalized(env, base);
    BuiltInIdsAreValid();
    NormalizedIsCorporate(env, base);
    FiledIsCorporate(env, base, q);
    FiledIsLoadable(q, CORPORATE);
    ValidExactly(Filed(q, CORPORATE));
  }

  /** Without a file, the corporate organization is what the legacy corporate files amount to. */
  lemma MissingCorporateIsMade(env: Env, s: Store, persist: bool)
    requires CORPORATE !in Before(env, s, persist).orgs
    ensures var before, after := Before(env, s, persist), Load(env, s, CORPORATE, persist);
      if env.legacyCorporate.None? then after == Loaded(before, Err(BadLegacy))
      else
        var base := env.legacyCorporate.value;
        && (after.outcome.Ok? <==> IsLoadable(if persist then AsFiled(base) else base))
        && (after.outcome.Ok? ==> IsCorporateForm(env, base, after.outcome.value))
        && (persist ==> CORPORATE in after.store.orgs && after.store.orgs[CORPORATE].Readable?
                        && IsCorporateForm(env, base, after.store.orgs[CORPORATE].value))
        && (!persist ==> after.store == before)
  {
    if env.legacyCorporate.Some? {
      var base := env.legacyCorporate.value;
      if persist {
        CorporateIsFiled(env, Before(env, s, persist), base);
      } else {
        NormalizedIsCorporate(env, base);
        ValidExactly(Normalized(env, base));
      }
    }
  }

  /**
  A custom organization in the corporate slot is never what loading the corporate one returns: that is what
  the legacy corporate files amount to, once the custom organization has been archived; or an error, when
  they cannot be read, no archive id is valid, or the index cannot be pointed at the archived one.
  */
  lemma CustomIsReplaced(env: Env, s: Store, persist: bool)
    requires HoldsCustom(env, Before(env, s, persist))
    ensures var before, after := Before(env, s, persist), Load(env, s, CORPORATE, persist);
      if persist && !Allocation.IsValidId(ArchiveId(before)) then after == Loaded(before, Err(InvalidId))
      else if persist && IndexIsStuck(before) then after.outcome == Err(BadIndexSchema)
      else if env.legacyCorporate.None? then after.outcome == Err(BadLegacy)
      else
        && after.outcome.Ok? && IsCorporateForm(env, env.legacyCorporate.value, after.outcome.value)
        && (persist ==> CORPORATE in after.store.orgs && after.store.orgs[CORPORATE].Readable?
                        && IsCorporateForm(env, env.legacyCorporate.value, after.store.orgs[CORPORATE].value))
        && (!persist ==> after.store == before)
  {
    BuiltInIdsAreValid();
    if env.legacyCorporate.Some? {
      NormalizedIsCorporate(env, env.legacyCorporate.value);
      FiledIsCorporate(env, env.legacyCorporate.value, Normalized(env, env.legacyCorporate.value));
    }
  }

  /** A corporate file that cannot be read is an error, and nothing is written over it. */
  lemma UnreadableCorporateIsKept(env: Env, s: Store, persist: bool)
    requires var before := Before(env, s, persist);
      CORPORATE in before.orgs && ReadValid(before.orgs[CORPORATE]).Err?
    ensures var before := Before(env, s, persist);
      Load(env, s, CORPORATE, persist) == Loaded(before, Err(ReadValid(before.orgs[CORPORATE]).error))
  {
  }

  // --- a round trip ---

  /**
  An organization that is written under an id of its own is loaded as it was written, apart from its employees
  and templates, which are in the registry and gone; it can be loaded exactly when it is loadable as filed.
  */
  lemma LoadUndoesWrite(env: Env, s: Store, id: string, p: Payload, persist: bool)
    requires id != CORPORATE && Allocation.IsValidId(id)
    ensures WriteOrg(env, s, id, p).Ok?
    ensures var loaded := Load(env, WriteOrg(env, s, id, p).value, id, persist).outcome;
      && (loaded.Ok? <==> IsLoadable(AsFiled(p)))
      && (loaded.Ok? ==>
            && SaysTheSame(loaded.value, p) && loaded.value.id == id
            && loaded.value.employees == [] && loaded.value.templates == [])
  {
    var written := WriteOrg(env, s, id, p).value;
    if persist { MigrateAdds(env, written, |env.legacyOrgs|); }
    FiledIsLoadable(p, id);
    ValidExactly(Filed(p, id));
    OwnFileIsReturned(env, written, id, persist);
  }

  /**
  Writing needs a valid id.  The file then says where it is and, if it did not, which schema and kind it has; its
  employees are enrolled and its templates gone; everything else in it, and every other file, is as it was.
  */
  lemma WriteIsExact(env: Env, s: Store, id: string, p: Payload)
    ensures if 1 <= |id| <= 64 && forall i | 0 <= i < |id| :: Ids.IsSlugChar(id[i])
            then WriteOrg(env, s, id, p).Ok? else WriteOrg(env, s, id, p) == Err(InvalidId)
    ensures WriteOrg(env, s, id, p).Ok? ==>
      var after := WriteOrg(env, s, id, p).value;
      && after.index == s.index && id in after.orgs && after.orgs[id].Readable?
      && IsFiledFrom(after.orgs[id].value, p, id)
      && (forall other | other != id :: (other in after.orgs <==> other in s.orgs)
            && (other in s.orgs ==> after.orgs[other] == s.orgs[other]) && RosterOf(after, other) == RosterOf(s, other))
      && RosterOf(after, id) == if p.employees == [] then RosterOf(s, id) else env.enroll(RosterOf(s, id), p.employees)
  {
  }

  ghost predicate IsFiledFrom(q: Payload, p: Payload, id: string) {
    && q.id == id && q.name == p.name && q.company == p.company && q.roles == p.roles && q.rest == p.rest
    && q.source == p.source && q.employees == [] && q.templates == []
    && q.schema == (if p.schema.Missing? then Version(2) else p.schema)
    && q.kind == (if p.kind.None? then Some("opc_org_architecture") else p.kind)
    && q.configFile == Some("company_orgs/" + ("org_" + id + "_config.yaml"))
  }

  // --- names and employees of organizations that are moved ---

  /** What a custom organization in the corporate slot is archived as. */
  ghost predicate IsArchivedForm(p: Payload, id: string, q: Payload) {
    && q.id == id && q.roles == p.roles && q.rest == p.rest && q.employees == []
    && q.company.name == p.company.name && q.company.rest == p.company.rest
    && q.company.profile == Some(CUSTOM_PROFILE)
    && exists name :: IsFirstName(name, p.name, p.company.name, "Corporate Custom") && q.name == Some(Trim(name))
  }

  lemma ArchivedIsForm(p: Payload, id: string)
    ensures IsArchivedForm(p, id, Filed(Archived(p), id))
  {
    var name := OrElse(CompanyOrgs.Str(p.name), OrElse(CompanyOrgs.Str(p.company.name), "Corporate Custom"));
    assert IsFirstName(name, p.name, p.company.name, "Corporate Custom");
  }

  lemma ConflictFiles(env: Env, s: Store, id: string, p: Payload)
    requires CORPORATE in s.orgs && id !in s.orgs && Allocation.IsValidId(id)
    ensures var after := LoadConflicting(env, s, id, p).store;
      id in after.orgs && after.orgs[id] == Readable(Filed(Archived(p), id))
  {
    ArchiveAdds(env, s, id, p);
  }

  /** An archived organization keeps its name, or gets one, and everything that its file said. */
  lemma ArchivedIsNamed(env: Env, s: Store)
    requires HoldsCustom(env, Migrate(env, s)) && Allocation.IsValidId(ArchiveId(Migrate(env, s)))
    ensures var m, after := Migrate(env, s), Load(env, s, CORPORATE, true).store;
      var id := ArchiveId(m);
      && id in after.orgs && after.orgs[id].Readable?
      && IsArchivedForm(ReadValid(m.orgs[CORPORATE]).value, id, after.orgs[id].value)
  {
    var m := Migrate(env, s);
    var p, id := ReadValid(m.orgs[CORPORATE]).value, ArchiveId(m);
    ConflictFiles(env, m, id, p);
    ArchivedIsForm(p, id);
  }

  /** What a legacy organization is filed as. */
  ghost predicate IsLegacyForm(env: Env, legacy: Legacy, id: string, q: Payload)
    requires legacy.file.Readable?
  {
    var p := legacy.file.value;
    && id == (if Allocation.IsValidId(Trim(p.id)) then Trim(p.id) else Ids.Slugify(env.slugs, legacy.stem, "org"))
    && q.id == id && q.templates == [] && q.employees == []
    && (exists name :: IsFirstName(name, p.name, p.company.name, legacy.stem) && q.name == Some(Trim(name)))
    && q.roles == (if p.roles.Some? then p.roles else Some(List([])))
    && q.company.name == (if p.company.name.Some? then p.company.name else q.name)
    && q.company.profile == (if p.company.profile.Some? then p.company.profile else Some(CUSTOM_PROFILE))
    && q.company.rest == p.company.rest && IsFilledUp(q.rest, p.rest, env.legacyDefaults)
    && IsLoadable(q)
  }

  lemma LegacyPayloadIsLegacyForm(env: Env, legacy: Legacy)
    requires legacy.file.Readable?
    ensures IsLegacyForm(env, legacy, LegacyId(env, legacy), Filed(LegacyPayload(env, legacy), LegacyId(env, legacy)))
  {
    var p := legacy.file.value;
    var name := OrElse(CompanyOrgs.Str(p.name), OrElse(CompanyOrgs.Str(p.company.name), legacy.stem));
    assert IsFirstName(name, p.name, p.company.name, legacy.stem);
    TrimIsTrimmed(KIND);
  }

  /**
  A readable legacy organization whose id is free when its turn comes is filed under that id, and its
  employees are enrolled there.
  */
  lemma LegacyOrganizationIsFiled(env: Env, s: Store, i: nat)
    requires i < |env.legacyOrgs| && env.legacyOrgs[i].file.Readable?
    requires LegacyId(env, env.legacyOrgs[i]) !in MigrateFirst(env, s, i).orgs
    ensures var legacy, id, after := env.legacyOrgs[i], LegacyId(env, env.legacyOrgs[i]), Migrate(env, s);
      && id in after.orgs && after.orgs[id].Readable? && IsLegacyForm(env, legacy, id, after.orgs[id].value)
      && RosterOf(after, id) ==
         var there, employees := RosterOf(MigrateFirst(env, s, i), id), legacy.file.value.employees;
         if employees == [] then there else env.enroll(there, employees)
  {
    var legacy, id := env.legacyOrgs[i], LegacyId(env, env.legacyOrgs[i]);
    MigrateOneFiles(env, MigrateFirst(env, s, i), legacy);
    MigratedFilesStay(env, s, i + 1, |env.legacyOrgs|, id);
    LegacyPayloadIsLegacyForm(env, legacy);
    LegacyIdIsValid(env, legacy);
    WriteEnrolls(env, MigrateFirst(env, s, i), id, LegacyPayload(env, legacy));
    RostersStay(env, s, i + 1, |env.legacyOrgs|, id);
  }

  lemma {:induction false} RostersStay(env: Env, s: Store, m: nat, n: nat, id: string)
    requires m <= n <= |env.legacyOrgs| && id in MigrateFirst(env, s, m).orgs
    ensures RosterOf(MigrateFirst(env, s, n), id) == RosterOf(MigrateFirst(env, s, m), id)
  {
    if m < n {
      RostersStay(env, s, m, n - 1, id);
      MigratedFilesStay(env, s, m, n - 1, id);
      MigrateOneKeepsRosters(env, MigrateFirst(env, s, n - 1), env.legacyOrgs[n - 1], id);
    }
  }

  /**
  The index follows an archived organization exactly when it can be read and is on the corporate one; it then
  holds the new id and the version it had, and a version that is no number is an error.
  */
  lemma RepointIsExact(s: Store, id: string)
    ensures match s.index
            case Some(Readable(Index(schema, active))) =>
              if Trim(active) != "corporate" then Repoint(s, id) == Ok(s)
              else
                (match schema
                 case Bad => Repoint(s, id) == Err(BadIndexSchema)
                 case Missing => Repoint(s, id) == Ok(s.(index := Some(Readable(Index(Version(1), id)))))
                 case Version(n) =>
                   Repoint(s, id) == Ok(s.(index := Some(Readable(Index(Version(if n == 0 then 1 else n), id))))))
            case _ => Repoint(s, id) == Ok(s)
  {
  }
}
