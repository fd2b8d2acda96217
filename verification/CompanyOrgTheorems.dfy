/** What loading an organization keeps, and when loading it again changes nothing. */
module CompanyOrgTheorems {
  import opened Wrappers
  import opened Json
  import opened CompanyOrgs
  import Ids = OrganizationIds
  import Allocation = IdAllocation

  /** How profiles are recognized: the two that the code writes are told apart. */
  predicate TellsProfiles(env: Env) {
    env.isCustom(CUSTOM_PROFILE) && !env.isCustom(CORPORATE)
  }

  lemma BuiltInIdsAreValid()
    ensures Allocation.IsValidId(CORPORATE) && Allocation.IsValidId(CORPORATE_CUSTOM)
    ensures !Ids.IsDash(CORPORATE_CUSTOM[0])
  {
    assert forall i | 0 <= i < |CORPORATE_CUSTOM| :: Ids.IsSlugChar(CORPORATE_CUSTOM[i]);
    assert forall i | 0 <= i < |CORPORATE| :: Ids.IsSlugChar(CORPORATE[i]);
  }

  // --- the legacy migration ---

  lemma LegacyIdIsValid(env: Env, legacy: Legacy)
    requires legacy.file.Readable?
    ensures Allocation.IsValidId(LegacyId(env, legacy))
  {
    Ids.SlugifyGivesSlug(env.slugs, legacy.stem, "org");
  }

  lemma MigrateOneAdds(env: Env, s: Store, legacy: Legacy)
    ensures forall id | id in s.orgs ::
      id in MigrateOne(env, s, legacy).orgs && MigrateOne(env, s, legacy).orgs[id] == s.orgs[id]
    ensures legacy.file.Readable? ==> LegacyId(env, legacy) in MigrateOne(env, s, legacy).orgs
    ensures MigrateOne(env, s, legacy).index == s.index
  {
    if legacy.file.Readable? { LegacyIdIsValid(env, legacy); }
  }

  /** Migrating adds the readable legacy organizations and touches no file that is there. */
  lemma {:induction false} MigrateAdds(env: Env, s: Store, n: nat)
    requires n <= |env.legacyOrgs|
    ensures var after := MigrateFirst(env, s, n);
      && (forall id | id in s.orgs :: id in after.orgs && after.orgs[id] == s.orgs[id])
      && (forall i | 0 <= i < n && env.legacyOrgs[i].file.Readable? :: LegacyId(env, env.legacyOrgs[i]) in after.orgs)
      && after.index == s.index
  {
    if n > 0 {
      MigrateAdds(env, s, n - 1);
      MigrateOneAdds(env, MigrateFirst(env, s, n - 1), env.legacyOrgs[n - 1]);
    }
  }

  lemma {:induction false} MigratedFilesStay(env: Env, s: Store, m: nat, n: nat, id: string)
    requires m <= n <= |env.legacyOrgs| && id in MigrateFirst(env, s, m).orgs
    ensures id in MigrateFirst(env, s, n).orgs && MigrateFirst(env, s, n).orgs[id] == MigrateFirst(env, s, m).orgs[id]
  {
    if m < n {
      MigratedFilesStay(env, s, m, n - 1, id);
      MigrateOneAdds(env, MigrateFirst(env, s, n - 1), env.legacyOrgs[n - 1]);
    }
  }

  lemma MigrateOneFiles(env: Env, s: Store, legacy: Legacy)
    requires legacy.file.Readable? && LegacyId(env, legacy) !in s.orgs
    ensures var id := LegacyId(env, legacy);
      id in MigrateOne(env, s, legacy).orgs &&
      MigrateOne(env, s, legacy).orgs[id] == Readable(Filed(LegacyPayload(env, legacy), id))
  {
    LegacyIdIsValid(env, legacy);
  }

  /**
  A readable legacy organization whose id is still free when its turn comes is filed under that id with
  its roles and everything else it had; what it lacked is filled in.
  */
  lemma LegacyOrganizationIsMigrated(env: Env, s: Store, i: nat)
    requires i < |env.legacyOrgs| && env.legacyOrgs[i].file.Readable?
    requires LegacyId(env, env.legacyOrgs[i]) !in MigrateFirst(env, s, i).orgs
    ensures var p, id, after := env.legacyOrgs[i].file.value, LegacyId(env, env.legacyOrgs[i]), Migrate(env, s);
      && id in after.orgs && after.orgs[id].Readable? && after.orgs[id].value.id == id
      && (p.roles.Some? ==> after.orgs[id].value.roles == p.roles)
      && (p.company.name.Some? ==> after.orgs[id].value.company.name == p.company.name)
      && (p.company.profile.Some? ==> after.orgs[id].value.company.profile == p.company.profile)
      && (p.company.profile.None? ==> after.orgs[id].value.company.profile == Some(CUSTOM_PROFILE))
      && (forall key | key in p.rest :: key in after.orgs[id].value.rest && after.orgs[id].value.rest[key] == p.rest[key])
  {
    var legacy, id := env.legacyOrgs[i], LegacyId(env, env.legacyOrgs[i]);
    MigrateOneFiles(env, MigrateFirst(env, s, i), legacy);
    MigratedFilesStay(env, s, i + 1, |env.legacyOrgs|, id);
  }

  ghost predicate HasAllLegacy(env: Env, s: Store) {
    forall i | 0 <= i < |env.legacyOrgs| && env.legacyOrgs[i].file.Readable? :: LegacyId(env, env.legacyOrgs[i]) in s.orgs
  }

  lemma {:induction false} MigrateSettles(env: Env, s: Store, n: nat)
    requires n <= |env.legacyOrgs| && HasAllLegacy(env, s)
    ensures MigrateFirst(env, s, n) == s
  {
    if n > 0 {
      MigrateSettles(env, s, n - 1);
    }
  }

  // --- what one load keeps ---

  /** Everything in `before` is there after it, apart from the file of `id`. */
  ghost predicate KeepsOthers(before: Store, after: Store, id: string) {
    forall other | other in before.orgs ::
      other in after.orgs && (other != id ==> after.orgs[other] == before.orgs[other])
  }

  /** Archiving under a fresh valid id adds that file and no other. */
  lemma ArchiveAdds(env: Env, s: Store, id: string, p: Payload)
    requires id !in s.orgs
    ensures var after := Archive(env, s, id, p).0;
      if Allocation.IsValidId(id) then after.orgs == s.orgs[id := Readable(Filed(Archived(p), id))]
      else after == s && Archive(env, s, id, p).1.Some?
  {
  }

  lemma WriteKeepsOthers(env: Env, s: Store, id: string, p: Payload)
    requires WriteOrg(env, s, id, p).Ok?
    ensures KeepsOthers(s, WriteOrg(env, s, id, p).value, id)
  {
  }

  lemma ConflictKeepsOthers(env: Env, s: Store, id: string, p: Payload)
    requires id !in s.orgs && CORPORATE in s.orgs
    ensures KeepsOthers(s, LoadConflicting(env, s, id, p).store, CORPORATE)
  {
    ArchiveAdds(env, s, id, p);
    var (archived, failure) := Archive(env, s, id, p);
    assert KeepsOthers(s, archived, CORPORATE);
    if failure.None? && env.legacyCorporate.Some? {
      var payload := Normalized(env, env.legacyCorporate.value);
      if WriteOrg(env, archived, CORPORATE, payload).Ok? { WriteKeepsOthers(env, archived, CORPORATE, payload); }
    }
  }

  lemma PersistKeepsOthers(env: Env, s: Store, id: string, p: Payload)
    ensures KeepsOthers(s, Persist(env, s, id, p).store, id)
  {
  }

  lemma LoadMigratedKeepsOthers(env: Env, s: Store, id: string)
    ensures KeepsOthers(s, LoadMigrated(env, s, id, true).store, id)
  {
    if id !in s.orgs {
      if id == CORPORATE && env.legacyCorporate.Some? {
        PersistKeepsOthers(env, s, id, Normalized(env, env.legacyCorporate.value));
      }
    } else if ReadValid(s.orgs[id]).Ok? {
      var p := ReadValid(s.orgs[id]).value;
      if id == CORPORATE && IsCustom(env, p) {
        ConflictKeepsOthers(env, s, ArchiveId(s), p);
      } else {
        PersistKeepsOthers(env, s, id, Effective(env, id, p).value);
      }
    }
  }

  /** Loading one organization leaves the file of every other organization exactly as it was. */
  lemma OtherOrganizationsAreKept(env: Env, s: Store, id: string, persist: bool)
    ensures KeepsOthers(s, Load(env, s, id, persist).store, id)
  {
    if persist {
      MigrateAdds(env, s, |env.legacyOrgs|);
      LoadMigratedKeepsOthers(env, Migrate(env, s), id);
    }
  }

  /** Where migrations may not be written, nothing is. */
  lemma NoMigrationNoWrites(env: Env, s: Store, id: string)
    ensures Load(env, s, id, false).store == s
  {
  }

  /** The roles of an organization that is loaded, and was not a custom one in the corporate slot, stay its roles. */
  lemma OwnRolesAreKept(env: Env, s: Store, id: string, p: Payload)
    requires id in s.orgs && s.orgs[id] == Readable(p)
    requires !(id == CORPORATE && IsCustom(env, p))
    ensures var after := Load(env, s, id, true).store;
      && id in after.orgs && after.orgs[id].Readable?
      && (after.orgs[id].value.roles == p.roles
          || (id == CORPORATE && p.roles.None? && after.orgs[id].value.roles == Some(List([]))))
  {
    MigrateAdds(env, s, |env.legacyOrgs|);
  }

  // --- a custom organization in the corporate slot ---

  /** The corporate slot holds a custom organization that loading can read. */
  ghost predicate HoldsCustom(env: Env, s: Store) {
    CORPORATE in s.orgs && ReadValid(s.orgs[CORPORATE]).Ok? && IsCustom(env, ReadValid(s.orgs[CORPORATE]).value)
  }

  /** The index says that `id` is the active organization. */
  predicate PointsAt(s: Store, id: string) {
    s.index.Some? && s.index.value.Readable? && s.index.value.value.active == id
  }

  lemma ConflictArchives(env: Env, s: Store, id: string, p: Payload)
    requires TellsProfiles(env) && CORPORATE in s.orgs && id !in s.orgs && Allocation.IsValidId(id)
    ensures var after := LoadConflicting(env, s, id, p);
      && id in after.store.orgs && after.store.orgs[id] == Readable(Filed(Archived(p), id))
      && (after.outcome.Ok? ==>
            && !HoldsCustom(env, after.store)
            && (if ActiveIsCorporate(s)
                then PointsAt(after.store, id)
                else after.store.index == s.index))
      && (after.outcome.Err? ==>
            CORPORATE in after.store.orgs && after.store.orgs[CORPORATE] == s.orgs[CORPORATE])
  {
    ArchiveAdds(env, s, id, p);
    BuiltInIdsAreValid();
  }

  lemma ArchivedIsTheSame(env: Env, p: Payload, id: string)
    requires TellsProfiles(env)
    ensures var q := Filed(Archived(p), id);
      q.id == id && q.roles == p.roles && q.rest == p.rest && q.company.name == p.company.name && IsCustom(env, q)
  {
  }

  /**
  It is filed, with its roles, under an id that no file had before.  When loading succeeds, the
  corporate slot no longer holds a custom organization, and an index that pointed at the slot points
  at the new id; when loading fails, the slot still holds the organization itself.
  */
  lemma CustomOrganizationSurvives(env: Env, s: Store)
    requires TellsProfiles(env) && HoldsCustom(env, Migrate(env, s))
    requires Allocation.IsValidId(ArchiveId(Migrate(env, s)))
    ensures var m, after := Migrate(env, s), Load(env, s, CORPORATE, true);
      var p, id := ReadValid(m.orgs[CORPORATE]).value, ArchiveId(m);
      && id !in s.orgs && id in after.store.orgs && after.store.orgs[id].Readable?
      && after.store.orgs[id].value.roles == p.roles && after.store.orgs[id].value.rest == p.rest
      && IsCustom(env, after.store.orgs[id].value)
      && (after.outcome.Ok? ==>
            && !HoldsCustom(env, after.store)
            && (if ActiveIsCorporate(s)
                then PointsAt(after.store, id)
                else after.store.index == s.index))
      && (after.outcome.Err? ==>
            CORPORATE in after.store.orgs && after.store.orgs[CORPORATE] == m.orgs[CORPORATE])
  {
    MigrateAdds(env, s, |env.legacyOrgs|);
    var m := Migrate(env, s);
    var p := ReadValid(m.orgs[CORPORATE]).value;
    ConflictArchives(env, m, ArchiveId(m), p);
    ArchivedIsTheSame(env, p, ArchiveId(m));
  }

  // --- employees move to the registry ---

  lemma MigrateOneKeepsRosters(env: Env, s: Store, legacy: Legacy, id: string)
    requires id in s.orgs
    ensures RosterOf(MigrateOne(env, s, legacy), id) == RosterOf(s, id)
  {
  }

  lemma {:induction false} MigrateKeepsRosters(env: Env, s: Store, n: nat, id: string)
    requires n <= |env.legacyOrgs| && id in s.orgs
    ensures RosterOf(MigrateFirst(env, s, n), id) == RosterOf(s, id)
  {
    if n > 0 {
      MigrateKeepsRosters(env, s, n - 1, id);
      MigrateAdds(env, s, n - 1);
      MigrateOneKeepsRosters(env, MigrateFirst(env, s, n - 1), env.legacyOrgs[n - 1], id);
    }
  }

  lemma WriteEnrolls(env: Env, s: Store, id: string, p: Payload)
    requires WriteOrg(env, s, id, p).Ok?
    ensures var after := WriteOrg(env, s, id, p).value;
      && after.orgs[id].value.employees == []
      && RosterOf(after, id) == (if p.employees == [] then RosterOf(s, id) else env.enroll(RosterOf(s, id), p.employees))
      && forall other | other != id :: RosterOf(after, other) == RosterOf(s, other)
  {
  }

  /** Employees that a file still holds are enrolled in the registry of its organization, and leave the file. */
  lemma EmployeesAreEnrolled(env: Env, s: Store, id: string, p: Payload)
    requires id in s.orgs && s.orgs[id] == Readable(p) && p.employees != []
    requires !(id == CORPORATE && IsCustom(env, p))
    requires Load(env, s, id, true).outcome.Ok?
    ensures var after := Load(env, s, id, true).store;
      && RosterOf(after, id) == env.enroll(RosterOf(s, id), p.employees)
      && id in after.orgs && after.orgs[id].Readable? && after.orgs[id].value.employees == []
  {
    var m := Migrate(env, s);
    MigrateAdds(env, s, |env.legacyOrgs|);
    MigrateKeepsRosters(env, s, |env.legacyOrgs|, id);
    var payload := Effective(env, id, ReadValid(m.orgs[id]).value).value;
    assert payload.employees == p.employees;
    if WriteOrg(env, m, id, payload).Ok? { WriteEnrolls(env, m, id, payload); }
  }

  /** The employees of an archived organization are enrolled under its new id. */
  lemma ArchivedEmployeesAreEnrolled(env: Env, s: Store, id: string, p: Payload)
    requires id != CORPORATE && Allocation.IsValidId(id) && p.employees != []
    ensures RosterOf(LoadConflicting(env, s, id, p).store, id) == env.enroll(RosterOf(s, id), p.employees)
  {
    WriteEnrolls(env, s, id, Archived(p));
    var (archived, failure) := Archive(env, s, id, p);
    assert RosterOf(archived, id) == env.enroll(RosterOf(s, id), p.employees);
    if failure.None? && env.legacyCorporate.Some? {
      var payload := Normalized(env, env.legacyCorporate.value);
      if WriteOrg(env, archived, CORPORATE, payload).Ok? { WriteEnrolls(env, archived, CORPORATE, payload); }
    }
  }

  // --- loading twice ---

  /** Pointing the index at an archived organization fails: its schema version is no number. */
  predicate IndexIsStuck(s: Store) {
    ActiveIsCorporate(s) && SchemaOf(s.index.value.value.schema).None?
  }

  /**
  The corporate slot keeps its custom organization although that has been archived: the legacy
  corporate configuration that should replace it cannot be read, or the index cannot be written.
  */
  ghost predicate ArchivesAgain(env: Env, s: Store) {
    && HoldsCustom(env, s)
    && (env.legacyCorporate.None? || IndexIsStuck(s))
    && Allocation.IsValidId(ArchiveId(s))
    && Allocation.IsValidId(Allocation.Free(s.orgs.Keys + {ArchiveId(s)}, CORPORATE_CUSTOM))
  }

  lemma AfterStuckArchive(env: Env, s: Store)
    requires HoldsCustom(env, s) && Allocation.IsValidId(ArchiveId(s))
    requires env.legacyCorporate.None? || IndexIsStuck(s)
    ensures var after := LoadMigrated(env, s, CORPORATE, true).store;
      && after.orgs.Keys == s.orgs.Keys + {ArchiveId(s)}
      && after.orgs[CORPORATE] == s.orgs[CORPORATE]
      && (env.legacyCorporate.None? || IndexIsStuck(after))
  {
    ArchiveAdds(env, s, ArchiveId(s), ReadValid(s.orgs[CORPORATE]).value);
  }

  /** Loading a corporate organization that is not custom, a second time. */
  lemma SettledCorporate(env: Env, s: Store, p: Payload)
    requires CORPORATE in s.orgs && s.orgs[CORPORATE] == Readable(p)
    requires !IsCustom(env, p) && p.employees == []
    ensures LoadMigrated(env, s, CORPORATE, true).store == s
  {
  }

  lemma CorporateSettles(env: Env, s: Store)
    requires TellsProfiles(env) && !ArchivesAgain(env, s)
    ensures var after := LoadMigrated(env, s, CORPORATE, true).store;
      LoadMigrated(env, after, CORPORATE, true).store == after
  {
    BuiltInIdsAreValid();
    var after := LoadMigrated(env, s, CORPORATE, true).store;
    if HoldsCustom(env, s) {
      var p := ReadValid(s.orgs[CORPORATE]).value;
      ArchiveAdds(env, s, ArchiveId(s), p);
      if Allocation.IsValidId(ArchiveId(s)) {
        if env.legacyCorporate.None? || IndexIsStuck(s) {
          AfterStuckArchive(env, s);
          ArchiveAdds(env, after, ArchiveId(after), p);
        } else {
          SettledCorporate(env, after, Filed(Normalized(env, env.legacyCorporate.value), CORPORATE));
        }
      }
    } else if CORPORATE in s.orgs && ReadValid(s.orgs[CORPORATE]).Ok? {
      var p := Normalized(env, ReadValid(s.orgs[CORPORATE]).value);
      if NeedsExternalization(p) { SettledCorporate(env, after, Filed(p, CORPORATE)); }
    } else if CORPORATE !in s.orgs && env.legacyCorporate.Some? {
      SettledCorporate(env, after, Filed(Normalized(env, env.legacyCorporate.value), CORPORATE));
    }
  }

  lemma CorporateDoesNotSettle(env: Env, s: Store)
    requires ArchivesAgain(env, s)
    ensures var after := LoadMigrated(env, s, CORPORATE, true).store;
      LoadMigrated(env, after, CORPORATE, true).store != after
  {
    var after := LoadMigrated(env, s, CORPORATE, true).store;
    AfterStuckArchive(env, s);
    ArchiveAdds(env, after, ArchiveId(after), ReadValid(s.orgs[CORPORATE]).value);
  }

  lemma OtherSettles(env: Env, s: Store, id: string)
    requires id != CORPORATE
    ensures var after := LoadMigrated(env, s, id, true).store; LoadMigrated(env, after, id, true).store == after
  {
  }

  /** Migrations that have been written are not written again. */
  lemma LoadAgainSkipsMigration(env: Env, s: Store, id: string)
    ensures var after := Load(env, s, id, true).store; Load(env, after, id, true) == LoadMigrated(env, after, id, true)
  {
    MigrateAdds(env, s, |env.legacyOrgs|);
    LoadMigratedKeepsOthers(env, Migrate(env, s), id);
    MigrateSettles(env, Load(env, s, id, true).store, |env.legacyOrgs|);
  }

  /**
  Loading an organization twice leaves the same files as loading it once, except in one case: a custom
  organization in the corporate slot that cannot be replaced there.  It is archived by every load anew.
  */
  lemma LoadingTwiceIsLoadingOnce(env: Env, s: Store, id: string)
    requires TellsProfiles(env)
    ensures var once := Load(env, s, id, true).store;
      Load(env, once, id, true).store == once <==> !(id == CORPORATE && ArchivesAgain(env, Migrate(env, s)))
  {
    LoadAgainSkipsMigration(env, s, id);
    if id != CORPORATE {
      OtherSettles(env, Migrate(env, s), id);
    } else if ArchivesAgain(env, Migrate(env, s)) {
      CorporateDoesNotSettle(env, Migrate(env, s));
    } else {
      CorporateSettles(env, Migrate(env, s));
    }
  }

  /** The archive ids are valid as long as there are fewer than 10^62 organizations. */
  lemma ArchiveIdsAreValid(s: Store)
    requires |s.orgs.Keys| + 3 < Allocation.Pow10(62)
    ensures Allocation.IsValidId(ArchiveId(s))
    ensures Allocation.IsValidId(Allocation.Free(s.orgs.Keys + {ArchiveId(s)}, CORPORATE_CUSTOM))
  {
    BuiltInIdsAreValid();
    Allocation.FreeIsValid(s.orgs.Keys, CORPORATE_CUSTOM);
    Allocation.FreeIsValid(s.orgs.Keys + {ArchiveId(s)}, CORPORATE_CUSTOM);
  }

  /** A store with such an organization: nothing but a corporate slot taken by a custom one. */
  lemma ArchivingCanRepeat(env: Env, p: Payload)
    requires env.legacyOrgs == [] && env.legacyCorporate.None?
    requires Validate(p).Ok? && IsCustom(env, p)
    ensures ArchivesAgain(env, Migrate(env, Store(map[CORPORATE := Readable(p)], None, map[])))
  {
    var s := Store(map[CORPORATE := Readable(p)], None, map[]);
    assert s.orgs.Keys == {CORPORATE};
    PowersAreLarge(62);
    ArchiveIdsAreValid(s);
  }

  lemma {:induction false} PowersAreLarge(k: nat)
    requires k >= 1
    ensures Allocation.Pow10(k) >= 10
  {
    if k > 1 {
      PowersAreLarge(k - 1);
    }
  }
}
