/** Finding an organization id that no file uses yet. */
module IdAllocation {
  import opened Wrappers
  import opened Text
  import opened OrganizationIds

  predicate IsValidId(s: string) {
    1 <= |s| <= MAX_ID && AllSlug(s)
  }

  /** `validate_organization_id` */
  function ValidateOrganizationId(value: string): Option<string> {
    var id := Trim(value);
    if IsValidId(id) then Some(id) else None
  }

  /** `validate_saved_org_id`: the built-in profile's id is reserved. */
  function ValidateSavedOrgId(value: string): Option<string> {
    var id := ValidateOrganizationId(value);
    if id == Some(RESERVED) then None else id
  }

  // --- file names ---

  /** What stands before and after the id in the name of an organization's file. */
  datatype Naming = Naming(prefix: string, suffix: string)

  const ORG_FILES := Naming("org_", "_config.yaml")

  function FileName(n: Naming, id: string): string {
    n.prefix + id + n.suffix
  }

  /** What stands between prefix and suffix, if the name has both. */
  function Middle(n: Naming, name: string): Option<string> {
    if |name| < |n.prefix| + |n.suffix| || !(n.prefix <= name) || name[|name| - |n.suffix|..] != n.suffix then None
    else Some(name[|n.prefix|..|name| - |n.suffix|])
  }

  /** `organization_id_from_company_org_filename` */
  function IdOfFile(n: Naming, name: string): Option<string> {
    var id := Middle(n, name);
    if id.Some? && IsValidId(id.value) then id else None
  }

  /** `organization_id_from_org_config_filename`, which strips what it finds and skips the reserved id. */
  function SavedIdOfFile(n: Naming, name: string): Option<string> {
    var id := Middle(n, name);
    if id.Some? then ValidateSavedOrgId(id.value) else None
  }

  /** A file name names an id exactly when it is the file name of that id, and the id is valid. */
  lemma FileNamesNameIds(n: Naming, name: string, id: string)
    ensures IdOfFile(n, name) == Some(id) <==> name == FileName(n, id) && IsValidId(id)
  {
    MiddleOfFileName(n, id);
    if IdOfFile(n, name) == Some(id) {
      assert name == n.prefix + name[|n.prefix|..|name| - |n.suffix|] + name[|name| - |n.suffix|..];
    }
  }

  /** The ids that the files of a directory belong to. */
  function IdsOf(n: Naming, files: set<string>): set<string> {
    set f | f in files && IdOfFile(n, f).Some? :: IdOfFile(n, f).value
  }

  /** The ids that the saved or runtime files of a directory belong to. */
  function SavedIdsOf(n: Naming, files: set<string>): set<string> {
    set f | f in files && SavedIdOfFile(n, f).Some? :: SavedIdOfFile(n, f).value
  }

  lemma MiddleOfFileName(n: Naming, id: string)
    ensures Middle(n, FileName(n, id)) == Some(id)
  {
    var name := FileName(n, id);
    assert name[|n.prefix|..|name| - |n.suffix|] == id;
    assert name[|name| - |n.suffix|..] == n.suffix;
  }

  /** A file of an id that is not reserved is counted. */
  lemma SavedFilesAreCounted(n: Naming, files: set<string>, id: string)
    requires FileName(n, id) in files && IsValidId(id) && id != RESERVED
    ensures id in SavedIdsOf(n, files)
  {
    MiddleOfFileName(n, id);
    assert !IsSpace(id[0]) && !IsSpace(id[|id| - 1]);
    TrimIsTrimmed(id);
    assert SavedIdOfFile(n, FileName(n, id)) == Some(id);
  }

  lemma IdsHaveFiles(n: Naming, files: set<string>, id: string)
    ensures id in IdsOf(n, files) <==> FileName(n, id) in files && IsValidId(id)
  {
    FileNamesNameIds(n, FileName(n, id), id);
    if id in IdsOf(n, files) {
      var f :| f in files && IdOfFile(n, f) == Some(id);
      FileNamesNameIds(n, f, id);
    }
  }

  // --- numbered variants of an id ---

  function Digit(d: nat): char
    requires d < 10
  {
    ('0' as int + d) as char
  }

  function Decimal(n: nat): (s: string)
    ensures s != "" && forall i | 0 <= i < |s| :: '0' <= s[i] <= '9'
  {
    if n < 10 then [Digit(n)] else Decimal(n / 10) + [Digit(n % 10)]
  }

  lemma {:induction false} DecimalsDiffer(m: nat, n: nat)
    requires Decimal(m) == Decimal(n)
    ensures m == n
  {
    var s, t := Decimal(m), Decimal(n);
    assert s[|s| - 1] == Digit(m % 10) && t[|t| - 1] == Digit(n % 10);
    if m >= 10 && n >= 10 {
      assert s[..|s| - 1] == Decimal(m / 10) && t[..|t| - 1] == Decimal(n / 10);
      DecimalsDiffer(m / 10, n / 10);
    }
  }

  function Pow10(k: nat): nat {
    if k == 0 then 1 else 10 * Pow10(k - 1)
  }

  lemma {:induction false} DecimalLength(n: nat, k: nat)
    requires 1 <= k && n < Pow10(k)
    ensures |Decimal(n)| <= k
  {
    if n >= 10 {
      DecimalLength(n / 10, k - 1);
    }
  }

  function Tail(n: nat): string {
    ['_'] + Decimal(n)
  }

  function Room(tail: string): nat {
    if |tail| < MAX_ID then MAX_ID - |tail| else 1
  }

  function Stem(candidate: string, n: nat): string {
    OrElse(StripRight(Prefix(candidate, Room(Tail(n)))), "org")
  }

  /** The variant of `candidate` that is numbered `n`. */
  function NextId(candidate: string, n: nat): string {
    Stem(candidate, n) + Tail(n)
  }

  /** However a candidate has to be cut to make room, its variants differ. */
  lemma NextIdsDiffer(candidate: string, m: nat, n: nat)
    requires NextId(candidate, m) == NextId(candidate, n)
    ensures m == n
  {
    var a, b := Stem(candidate, m), Stem(candidate, n);
    assert NextId(candidate, m) == a + ['_'] + Decimal(m) && NextId(candidate, n) == b + ['_'] + Decimal(n);
    RFindAtLast(a, Decimal(m), '_');
    RFindAtLast(b, Decimal(n), '_');
    assert NextId(candidate, m)[|a| + 1..] == Decimal(m) && NextId(candidate, n)[|b| + 1..] == Decimal(n);
    DecimalsDiffer(m, n);
  }

  /** The variants from number 2 up to, but without, number `n`. */
  function Tried(candidate: string, n: nat): set<string> {
    if n <= 2 then {} else Tried(candidate, n - 1) + {NextId(candidate, n - 1)}
  }

  lemma {:induction false} NotTriedYet(candidate: string, m: nat, n: nat)
    requires m <= n
    ensures NextId(candidate, n) !in Tried(candidate, m)
  {
    if m > 2 {
      NotTriedYet(candidate, m - 1, n);
      if NextId(candidate, m - 1) == NextId(candidate, n) {
        NextIdsDiffer(candidate, m - 1, n);
      }
    }
  }

  lemma TryingShrinks(existing: set<string>, candidate: string, n: nat)
    requires n >= 2 && NextId(candidate, n) in existing
    ensures existing - Tried(candidate, n + 1) < existing - Tried(candidate, n)
  {
    NotTriedYet(candidate, n, n);
    assert NextId(candidate, n) in existing - Tried(candidate, n);
  }

  /** The first free variant from `n` on; there are only finitely many ids to run into. */
  function FirstFree(existing: set<string>, candidate: string, n: nat): (id: string)
    requires n >= 2
    ensures id !in existing
    decreases existing - Tried(candidate, n)
  {
    if NextId(candidate, n) !in existing then NextId(candidate, n)
    else
      TryingShrinks(existing, candidate, n);
      FirstFree(existing, candidate, n + 1)
  }

  function Free(existing: set<string>, candidate: string): (id: string)
    ensures id !in existing
  {
    if candidate !in existing then candidate else FirstFree(existing, candidate, 2)
  }

  /** The search that both allocators end with. */
  method FindFree(existing: set<string>, candidate: string) returns (id: string)
    ensures id == Free(existing, candidate)
  {
    if candidate !in existing {
      return candidate;
    }
    var suffix := 2;
    while true
      invariant suffix >= 2 && FirstFree(existing, candidate, suffix) == FirstFree(existing, candidate, 2)
      decreases existing - Tried(candidate, suffix)
    {
      var tail := Tail(suffix);
      var stem := OrElse(StripRight(Prefix(candidate, Room(tail))), "org");
      id := stem + tail;
      if id !in existing {
        return;
      }
      TryingShrinks(existing, candidate, suffix);
      suffix := suffix + 1;
    }
  }

  // --- how far the search can go ---

  lemma OneMore<T>(s: set<T>, x: T)
    requires x !in s
    ensures |s + {x}| == |s| + 1
  {
  }

  lemma {:induction false} TriedSize(candidate: string, n: nat)
    requires n >= 2
    ensures |Tried(candidate, n)| == n - 2
  {
    if n > 2 {
      TriedSize(candidate, n - 1);
      NotTriedYet(candidate, n - 1, n - 1);
      OneMore(Tried(candidate, n - 1), NextId(candidate, n - 1));
    }
  }

  lemma SubsetSize<T>(a: set<T>, b: set<T>)
    requires a <= b
    ensures |a| <= |b|
  {
    assert b == a + (b - a);
  }

  /** The search stops at the latest after as many variants as there are ids. */
  lemma {:induction false} FirstFreeIsNear(existing: set<string>, candidate: string, from: nat) returns (n: nat)
    requires from >= 2 && Tried(candidate, from) <= existing
    ensures from <= n <= |existing| + 2 && FirstFree(existing, candidate, from) == NextId(candidate, n)
    decreases existing - Tried(candidate, from)
  {
    if NextId(candidate, from) !in existing {
      TriedSize(candidate, from);
      SubsetSize(Tried(candidate, from), existing);
      n := from;
    } else {
      TryingShrinks(existing, candidate, from);
      n := FirstFreeIsNear(existing, candidate, from + 1);
    }
  }

  lemma StemIsSlug(candidate: string, n: nat)
    requires IsValidId(candidate)
    ensures AllSlug(Stem(candidate, n)) && Stem(candidate, n) != ""
    ensures !IsDash(candidate[0]) ==> |Stem(candidate, n)| <= Room(Tail(n))
    ensures Room(Tail(n)) >= 3 ==> |Stem(candidate, n)| <= Room(Tail(n))
  {
    StripRightIsPrefix(Prefix(candidate, Room(Tail(n))));
    OrgIsSlug();
  }

  /** A number of up to 62 digits fits behind a candidate that starts with a letter or digit, one of up to 60 behind any. */
  lemma NextIdIsValid(candidate: string, n: nat)
    requires IsValidId(candidate)
    requires n < Pow10(if IsDash(candidate[0]) then 60 else 62)
    ensures IsValidId(NextId(candidate, n))
  {
    DecimalLength(n, if IsDash(candidate[0]) then 60 else 62);
    StemIsSlug(candidate, n);
  }

  lemma FreeIsValid(existing: set<string>, candidate: string)
    requires IsValidId(candidate)
    requires |existing| + 2 < Pow10(if IsDash(candidate[0]) then 60 else 62)
    ensures IsValidId(Free(existing, candidate))
  {
    if candidate in existing {
      var n := FirstFreeIsNear(existing, candidate, 2);
      NextIdIsValid(candidate, n);
    }
  }

  // --- the two allocators ---

  function Candidate(t: Tools, name: string, preferred: Option<string>): string {
    if preferred.Some? then preferred.value else Slugify(t, name, "org")
  }

  /** `allocate_organization_id` */
  method AllocateOrganizationId(t: Tools, files: set<string>, name: string, preferredId: string) returns (id: string)
    ensures id == Free(IdsOf(ORG_FILES, files), Candidate(t, name, ValidateOrganizationId(preferredId)))
  {
    var base := ValidateOrganizationId(preferredId);
    var candidate := Candidate(t, name, base);
    id := FindFree(IdsOf(ORG_FILES, files), candidate);
  }

  /** The ids of saved organizations, of runtime organizations, and the reserved one. */
  function TakenIds(saved: set<string>, runtime: set<string>): set<string> {
    SavedIdsOf(ORG_FILES, saved) + SavedIdsOf(ORG_FILES, runtime) + {RESERVED}
  }

  /** `allocate_org_config_id` */
  method AllocateOrgConfigId(t: Tools, saved: set<string>, runtime: set<string>, name: string, preferredId: string)
    returns (id: string)
    ensures id == Free(TakenIds(saved, runtime), Candidate(t, name, ValidateSavedOrgId(preferredId)))
  {
    var base := ValidateSavedOrgId(preferredId);
    var candidate := Candidate(t, name, base);
    var existing := SavedIdsOf(ORG_FILES, saved);
    existing := existing + SavedIdsOf(ORG_FILES, runtime);
    existing := existing + {RESERVED};
    id := FindFree(existing, candidate);
  }

  predicate FewerThan(existing: set<string>, k: nat) {
    |existing| + 2 < Pow10(k)
  }

  lemma {:induction false} Pow10Grows(a: nat, b: nat)
    requires a <= b
    ensures Pow10(a) <= Pow10(b)
  {
    if a < b {
      Pow10Grows(a, b - 1);
    }
  }

  lemma CandidateIsValid(t: Tools, name: string, preferred: Option<string>)
    requires preferred.Some? ==> IsValidId(preferred.value)
    ensures IsValidId(Candidate(t, name, preferred))
    ensures preferred.None? ==> !IsDash(Candidate(t, name, preferred)[0])
  {
    SlugifyGivesSlug(t, name, "org");
  }

  /** The allocated organization id is valid, and no file of the directory has the name that it will get. */
  lemma AllocatedIdIsUsable(t: Tools, files: set<string>, name: string, preferred: Option<string>)
    requires preferred.Some? ==> IsValidId(preferred.value)
    requires FewerThan(IdsOf(ORG_FILES, files), if preferred.Some? then 60 else 62)
    ensures var id := Free(IdsOf(ORG_FILES, files), Candidate(t, name, preferred));
      IsValidId(id) && FileName(ORG_FILES, id) !in files
  {
    var existing, candidate := IdsOf(ORG_FILES, files), Candidate(t, name, preferred);
    CandidateIsValid(t, name, preferred);
    Pow10Grows(60, 62);
    FreeIsValid(existing, candidate);
    IdsHaveFiles(ORG_FILES, files, Free(existing, candidate));
  }

  /** The same for saved organizations; moreover the id is not reserved and no runtime snapshot uses it. */
  lemma AllocatedConfigIdIsUsable(
      t: Tools, saved: set<string>, runtime: set<string>, name: string, preferred: Option<string>)
    requires preferred.Some? ==> IsValidId(preferred.value)
    requires FewerThan(TakenIds(saved, runtime), if preferred.Some? then 60 else 62)
    ensures var id := Free(TakenIds(saved, runtime), Candidate(t, name, preferred));
      && IsValidId(id) && id != RESERVED
      && FileName(ORG_FILES, id) !in saved && FileName(ORG_FILES, id) !in runtime
  {
    var existing, candidate := TakenIds(saved, runtime), Candidate(t, name, preferred);
    CandidateIsValid(t, name, preferred);
    Pow10Grows(60, 62);
    FreeIsValid(existing, candidate);
    var id := Free(existing, candidate);
    if FileName(ORG_FILES, id) in saved { SavedFilesAreCounted(ORG_FILES, saved, id); }
    if FileName(ORG_FILES, id) in runtime { SavedFilesAreCounted(ORG_FILES, runtime, id); }
  }

  /** A preferred id that is valid, once stripped, is the candidate; without one the slug of the name is. */
  lemma PreferredIsTried(t: Tools, name: string, preferredId: string)
    ensures IsValidId(Trim(preferredId)) ==>
      Candidate(t, name, ValidateOrganizationId(preferredId)) == Trim(preferredId)
    ensures !IsValidId(Trim(preferredId)) ==>
      Candidate(t, name, ValidateOrganizationId(preferredId)) == Slugify(t, name, "org")
    ensures IsValidId(Trim(preferredId)) && Trim(preferredId) != "corporate" ==>
      Candidate(t, name, ValidateSavedOrgId(preferredId)) == Trim(preferredId)
    ensures !IsValidId(Trim(preferredId)) || Trim(preferredId) == "corporate" ==>
      Candidate(t, name, ValidateSavedOrgId(preferredId)) == Slugify(t, name, "org")
  {
  }

  // --- which id is found ---

  /** A candidate that is free is taken as it is; otherwise the least free number counts. */
  lemma {:induction false} FirstFreeIsLeast(existing: set<string>, candidate: string, from: nat) returns (n: nat)
    requires from >= 2
    ensures n >= from && FirstFree(existing, candidate, from) == NextId(candidate, n) && NextId(candidate, n) !in existing
    ensures forall m | from <= m < n :: NextId(candidate, m) in existing
    decreases existing - Tried(candidate, from)
  {
    hide NextId;
    n := from;
    if NextId(candidate, from) in existing {
      TryingShrinks(existing, candidate, from);
      n := FirstFreeIsLeast(existing, candidate, from + 1);
    }
  }

  lemma FreeIsLeast(existing: set<string>, candidate: string) returns (n: nat)
    ensures candidate !in existing ==> Free(existing, candidate) == candidate
    ensures candidate in existing ==>
      && n >= 2 && Free(existing, candidate) == NextId(candidate, n)
      && forall m | 2 <= m < n :: NextId(candidate, m) in existing
  {
    n := FirstFreeIsLeast(existing, candidate, 2);
  }

  /** The number that decimal digits stand for. */
  function ValueOf(digits: string): nat
    requires forall i | 0 <= i < |digits| :: '0' <= digits[i] <= '9'
  {
    if digits == "" then 0 else 10 * ValueOf(digits[..|digits| - 1]) + (digits[|digits| - 1] as int - '0' as int)
  }

  lemma {:induction false} DecimalIsItsNumber(n: nat)
    ensures ValueOf(Decimal(n)) == n
    ensures n > 0 ==> Decimal(n)[0] != '0'
  {
    var s := Decimal(n);
    if n >= 10 {
      DecimalIsItsNumber(n / 10);
      assert s[..|s| - 1] == Decimal(n / 10);
    } else {
      assert s[..0] == "";
    }
  }

  /**
  A variant is a beginning of the candidate, an underscore and the number; of a candidate that leaves room, and
  ends with a letter or digit, it is the whole candidate.
  */
  lemma NextIdIsNumbered(candidate: string, n: nat)
    requires IsValidId(candidate)
    ensures NextId(candidate, n) == Stem(candidate, n) + ['_'] + Decimal(n)
    ensures Stem(candidate, n) <= candidate || Stem(candidate, n) == "org"
    ensures |candidate| + 1 + |Decimal(n)| <= MAX_ID && !IsDash(candidate[|candidate| - 1]) ==> Stem(candidate, n) == candidate
  {
    StripRightIsPrefix(Prefix(candidate, Room(Tail(n))));
  }

  /**
  The stem is the part of the candidate that fits before the number, without the dashes at its end; if there is
  nothing else to it, "org".
  */
  lemma StemIsExact(candidate: string, n: nat)
    ensures var room := if 63 > |Decimal(n)| then 63 - |Decimal(n)| else 1;
      var cut := if |candidate| <= room then candidate else candidate[..room];
      if forall c | c in cut :: c == '_' || c == '-' then Stem(candidate, n) == "org"
      else
        var stem := Stem(candidate, n);
        && stem != "" && stem <= cut && stem[|stem| - 1] != '_' && stem[|stem| - 1] != '-'
        && forall i | |stem| <= i < |cut| :: cut[i] == '_' || cut[i] == '-'
  {
    var cut := Prefix(candidate, Room(Tail(n)));
    StrippedOffIsDashes(cut);
    NothingButDashes(cut);
  }

  lemma {:induction false} StrippedOffIsDashes(s: string)
    ensures StripRight(s) <= s
    ensures forall i | |StripRight(s)| <= i < |s| :: s[i] == '_' || s[i] == '-'
  {
    if s != "" && IsDash(s[|s| - 1]) {
      StrippedOffIsDashes(s[..|s| - 1]);
    }
  }

  lemma NothingButDashes(s: string)
    ensures StripRight(s) == "" <==> forall c | c in s :: c == '_' || c == '-'
  {
    StrippedOffIsDashes(s);
    var left := StripRight(s);
    if left != "" { assert s[|left| - 1] == left[|left| - 1] && s[|left| - 1] in s; }
  }

  /** Ids are stripped, and then they are 1 to 64 letters, digits, underscores and dashes. */
  lemma ValidatingIsExact(value: string)
    ensures ValidateOrganizationId(value) ==
      if 1 <= |Trim(value)| <= 64 && forall i | 0 <= i < |Trim(value)| :: IsSlugChar(Trim(value)[i])
      then Some(Trim(value)) else None
    ensures ValidateSavedOrgId(value) == if Trim(value) == "corporate" then None else ValidateOrganizationId(value)
  {
  }
}
