/** The configuration directory, whose files the loading functions rewrite. */
module CompanyConfig {
  import opened Wrappers
  import opened Text
  import opened CompanyOrgs
  import Allocation = IdAllocation

  class CompanyConfig {
    const env: Env
    /** Whether this is the user's own directory, where migrations are written. */
    const persist: bool
    var orgs: map<string, File<Payload>>
    var index: Option<File<Index>>
    var rosters: map<string, Roster>

    constructor (env: Env, persist: bool, s: Store)
      ensures this.env == env && this.persist == persist && Contents() == s
    {
      this.env, this.persist := env, persist;
      orgs, index, rosters := s.orgs, s.index, s.rosters;
    }

    ghost function Contents(): Store
      reads this
    {
      Store(orgs, index, rosters)
    }

    /** `write_company_org_payload`: employees go to the registry first, then the file is written. */
    method WriteCompanyOrgPayload(id: string, p: Payload) returns (failure: Option<Error>)
      modifies this
      ensures var written := WriteOrg(env, old(Contents()), id, p);
        if written.Ok? then failure.None? && Contents() == written.value
        else failure == Some(written.error) && Contents() == old(Contents())
    {
      if !Allocation.IsValidId(id) {
        return Some(InvalidId);
      }
      if p.employees != [] {
        var existing := if id in rosters then rosters[id] else [];
        rosters := rosters[id := env.enroll(existing, p.employees)];
      }
      orgs := orgs[id := Readable(Filed(p, id))];
      return None;
    }

    /** `_repoint_org_index_if_active_corporate` */
    method RepointOrgIndexIfActiveCorporate(archiveId: string) returns (failure: Option<Error>)
      modifies this
      ensures var repointed := Repoint(old(Contents()), archiveId);
        if repointed.Ok? then failure.None? && Contents() == repointed.value
        else failure == Some(repointed.error) && Contents() == old(Contents())
    {
      if index.None? || index.value.Unreadable? {
        return None;
      }
      var data := index.value.value;
      if Trim(data.active) != CORPORATE {
        return None;
      }
      var schema := SchemaOf(data.schema);
      if schema.None? {
        return Some(BadIndexSchema);
      }
      index := Some(Readable(Index(Version(schema.value), archiveId)));
      return None;
    }

    /** `_archive_conflicting_corporate_org_config` */
    method ArchiveConflictingCorporateOrgConfig() returns (failure: Option<Error>)
      requires CORPORATE in orgs && ReadValid(orgs[CORPORATE]).Ok?
      requires IsCustom(env, ReadValid(orgs[CORPORATE]).value)
      modifies this
      ensures var s := old(Contents());
        (Contents(), failure) == Archive(env, s, ArchiveId(s), ReadValid(s.orgs[CORPORATE]).value)
    {
      var existing := ReadValid(orgs[CORPORATE]).value;
      var archiveId := Allocation.FindFree(orgs.Keys, CORPORATE_CUSTOM);
      failure := WriteCompanyOrgPayload(archiveId, Archived(existing));
      if failure.Some? {
        return;
      }
      failure := RepointOrgIndexIfActiveCorporate(archiveId);
    }

    /** `_migrate_legacy_saved_orgs` */
    method MigrateLegacySavedOrgs()
      modifies this
      ensures Contents() == Migrate(env, old(Contents()))
    {
      for i := 0 to |env.legacyOrgs|
        invariant Contents() == MigrateFirst(env, old(Contents()), i)
      {
        var legacy := env.legacyOrgs[i];
        if legacy.file.Unreadable? {
          continue;
        }
        var id := LegacyId(env, legacy);
        if id in orgs {
          continue;
        }
        var _ := WriteCompanyOrgPayload(id, LegacyPayload(env, legacy));
      }
    }

    /** Write, read back and validate. */
    method WriteAndReload(id: string, p: Payload) returns (outcome: Result<Payload, Error>)
      modifies this
      ensures Loaded(Contents(), outcome) == Persist(env, old(Contents()), id, p)
    {
      var failure := WriteCompanyOrgPayload(id, p);
      if failure.Some? {
        return Err(failure.value);
      }
      return Validate(orgs[id].value);
    }

    /** The corporate slot is taken by a custom organization. */
    method LoadConflictingCorporate() returns (outcome: Result<Payload, Error>)
      requires CORPORATE in orgs && ReadValid(orgs[CORPORATE]).Ok?
      requires IsCustom(env, ReadValid(orgs[CORPORATE]).value)
      modifies this
      ensures var s := old(Contents());
        Loaded(Contents(), outcome) == LoadConflicting(env, s, ArchiveId(s), ReadValid(s.orgs[CORPORATE]).value)
    {
      var failure := ArchiveConflictingCorporateOrgConfig();
      if failure.Some? {
        return Err(failure.value);
      }
      if env.legacyCorporate.None? {
        return Err(BadLegacy);
      }
      var payload := Normalized(env, env.legacyCorporate.value);
      failure := WriteCompanyOrgPayload(CORPORATE, payload);
      if failure.Some? {
        return Err(failure.value);
      }
      return Ok(payload);
    }

    /** `load_company_org_payload`; no id means the corporate one. */
    method LoadCompanyOrgPayload(organizationId: string) returns (outcome: Result<Payload, Error>)
      modifies this
      ensures var id := Allocation.ValidateOrganizationId(OrElse(organizationId, CORPORATE));
        Loaded(Contents(), outcome) ==
        if id.None? then Loaded(old(Contents()), Err(InvalidId)) else Load(env, old(Contents()), id.value, persist)
    {
      var id := Allocation.ValidateOrganizationId(OrElse(organizationId, CORPORATE));
      if id.None? {
        return Err(InvalidId);
      }
      outcome := LoadValidated(id.value);
    }

    /** The rest of `load_company_org_payload`. */
    method LoadValidated(id: string) returns (outcome: Result<Payload, Error>)
      modifies this
      ensures Loaded(Contents(), outcome) == Load(env, old(Contents()), id, persist)
    {
      if persist {
        MigrateLegacySavedOrgs();
      }
      if id in orgs {
        var valid := ReadValid(orgs[id]);
        if valid.Err? {
          return Err(valid.error);
        }
        var payload := valid.value;
        if id == CORPORATE {
          if IsCustom(env, payload) {
            if persist {
              outcome := LoadConflictingCorporate();
              return;
            }
            if env.legacyCorporate.None? {
              return Err(BadLegacy);
            }
            payload := env.legacyCorporate.value;
          }
          payload := Normalized(env, payload);
        }
        if persist && NeedsExternalization(payload) {
          outcome := WriteAndReload(id, payload);
          return;
        }
        return Ok(payload);
      }
      if id != CORPORATE {
        return Err(NotFound);
      }
      if env.legacyCorporate.None? {
        return Err(BadLegacy);
      }
      var payload := Normalized(env, env.legacyCorporate.value);
      if persist {
        outcome := WriteAndReload(CORPORATE, payload);
        return;
      }
      return Validate(payload);
    }
  }
}
