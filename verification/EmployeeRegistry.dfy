/** The employee registry: one file per employee, in the directory of an organization. */
module EmployeeRegistry {
  import opened EmployeeRecords
  import opened EmployeeTheorems

  /** `_append_unique` */
  method AppendUniqueItems(items: seq<string>, additions: seq<string>) returns (result: seq<string>)
    ensures result == AppendUnique(items, additions)
  {
    result := items;
    for i := 0 to |additions|
      invariant AppendUnique(result, additions[i..]) == AppendUnique(items, additions)
    {
      assert additions[i..][1..] == additions[i + 1..];
      if additions[i] !in result {
        result := result + [additions[i]];
      }
    }
  }

  /** `normalize_employee_records` */
  method NormalizeEmployeeRecords(lower: string -> string, raws: seq<Raw>)
    returns (normalized: seq<Employee>, aliases: Aliases)
    ensures normalized == Normalized(ByKey(lower), raws)
    ensures aliases == AllAliases(raws)
  {
    var reals: seq<Employee> := [];
    var placeholders: seq<Employee> := [];
    aliases := map[];
    for i := 0 to |raws|
      invariant reals == Reals(raws[..i]) && placeholders == Placeholders(raws[..i])
      invariant aliases == AllAliases(raws[..i])
    {
      assert raws[..i + 1][..i] == raws[..i];
      var raw := raws[i];
      if raw.None? {
        continue;
      }
      if raw.value.metadata.placeholder {
        placeholders := placeholders + [raw.value];
        continue;
      }
      aliases := aliases + AliasesOf(raw.value);
      reals := Absorb(reals, Canonical(raw.value));
    }
    assert raws[..|raws|] == raws;
    normalized := Sort(ByKey(lower), reals) + placeholders;
  }

  // --- files ---

  datatype File = Stored(e: Employee) | Broken

  type Files = map<string, File>

  /** The file name of an employee, by the slug of its id. */
  type Slug = string -> string

  /** The directory after the employees have been written, one by one, to an empty one. */
  function Filed(slug: Slug, employees: seq<Employee>): Files {
    if employees == [] then map[]
    else
      var init, last := employees[..|employees| - 1], employees[|employees| - 1];
      Filed(slug, init)[slug(last.id) := Stored(last)]
  }

  /** The employees of the listed files, without those that cannot be read. */
  function Loaded(files: Files, names: seq<string>): seq<Employee> {
    if names == [] then []
    else
      var earlier, last := Loaded(files, names[..|names| - 1]), names[|names| - 1];
      if last in files && files[last].Stored? then earlier + [files[last].e] else earlier
  }

  /** A listing of the directory: every file once, in the order of their names. */
  ghost predicate Lists(names: seq<string>, files: Files) {
    && (forall n :: n in files <==> n in names)
    && (forall i | 0 <= i < |names| - 1 :: TextLe(names[i], names[i + 1]))
    && (forall i, j | 0 <= i < j < |names| :: names[i] != names[j])
  }

  function WithoutPlaceholders(employees: seq<Employee>): seq<Employee> {
    if employees == [] then []
    else
      var later := WithoutPlaceholders(employees[1..]);
      if employees[0].metadata.placeholder then later else [employees[0]] + later
  }

  class EmployeeRegistry {
    const lower: string -> string
    const slug: Slug
    var files: Files

    constructor (lower: string -> string, slug: Slug, files: Files)
      ensures this.lower == lower && this.slug == slug && this.files == files
    {
      this.lower, this.slug, this.files := lower, slug, files;
    }

    /** `load_employee_registry`, over a sorted listing of the directory. */
    method LoadEmployeeRegistry(names: seq<string>) returns (employees: seq<Employee>)
      requires Lists(names, files)
      ensures employees == Loaded(files, names)
    {
      employees := [];
      for i := 0 to |names|
        invariant employees == Loaded(files, names[..i])
      {
        assert names[..i + 1][..i] == names[..i];
        assert names[i] in names;
        var file := files[names[i]];
        if file.Stored? {
          employees := employees + [file.e];
        }
      }
      assert names[..|names|] == names;
    }

    /** Writes every employee to its file, over what is there. */
    method WriteEmployees(employees: seq<Employee>) returns (expected: set<string>)
      modifies this
      ensures expected == Filed(slug, employees).Keys && files == old(files) + Filed(slug, employees)
    {
      expected := {};
      for i := 0 to |employees|
        invariant expected == Filed(slug, employees[..i]).Keys
        invariant files == old(files) + Filed(slug, employees[..i])
      {
        FiledNext(slug, employees, i);
        var name := slug(employees[i].id);
        expected := expected + {name};
        files := files[name := Stored(employees[i])];
      }
      assert employees[..|employees|] == employees;
    }

    /** Removes every file but the expected ones. */
    method RemoveOthers(expected: set<string>)
      modifies this
      ensures files == map n | n in old(files) && n in expected :: old(files)[n]
    {
      var left := files.Keys;
      while left != {}
        invariant forall n :: n in files <==> n in old(files) && (n in expected || n in left)
        invariant forall n | n in files :: files[n] == old(files)[n]
        decreases left
      {
        var name :| name in left;
        left := left - {name};
        if name !in expected {
          files := files - {name};
        }
      }
    }

    /** `write_employee_registry`: the normalized real employees are written, then all other files removed. */
    method WriteEmployeeRegistry(raws: seq<Raw>) returns (normalized: seq<Employee>, aliases: Aliases)
      modifies this
      ensures normalized == Normalized(ByKey(lower), raws) && aliases == AllAliases(raws)
      ensures files == Filed(slug, WithoutPlaceholders(normalized))
    {
      normalized, aliases := NormalizeEmployeeRecords(lower, raws);
      var expected := WriteEmployees(WithoutPlaceholders(normalized));
      RemoveOthers(expected);
    }
  }

  lemma FiledNext(slug: Slug, employees: seq<Employee>, i: nat)
    requires i < |employees|
    ensures Filed(slug, employees[..i + 1]) == Filed(slug, employees[..i])[slug(employees[i].id) := Stored(employees[i])]
  {
    assert employees[..i + 1][..i] == employees[..i];
  }

  // --- writing and loading ---

  predicate DistinctSlugs(slug: Slug, employees: seq<Employee>) {
    forall i, j | 0 <= i < j < |employees| :: slug(employees[i].id) != slug(employees[j].id)
  }

  /** `employees[i]` is the last one with its slug. */
  predicate IsLast(slug: Slug, employees: seq<Employee>, i: nat)
    requires i < |employees|
  {
    forall j | i < j < |employees| :: slug(employees[j].id) != slug(employees[i].id)
  }

  /** A file holds the last employee written to it. */
  lemma {:induction false} FiledHoldsLast(slug: Slug, employees: seq<Employee>, n: string, e: Employee)
    ensures (n in Filed(slug, employees) && Filed(slug, employees)[n] == Stored(e)) <==>
            exists i :: 0 <= i < |employees| && employees[i] == e && slug(e.id) == n && IsLast(slug, employees, i)
  {
    if employees != [] {
      var init, last := employees[..|employees| - 1], employees[|employees| - 1];
      FiledHoldsLast(slug, init, n, e);
      if slug(last.id) == n {
        assert IsLast(slug, employees, |employees| - 1);
      } else {
        forall i | 0 <= i < |init| && slug(init[i].id) == n
          ensures IsLast(slug, employees, i) <==> IsLast(slug, init, i)
        {
        }
      }
    }
  }

  lemma {:induction false} FiledIsStored(slug: Slug, employees: seq<Employee>)
    ensures forall n | n in Filed(slug, employees) :: Filed(slug, employees)[n].Stored?
  {
    if employees != [] { FiledIsStored(slug, employees[..|employees| - 1]); }
  }

  lemma {:induction false} LoadedMembers(files: Files, names: seq<string>, e: Employee)
    ensures e in Loaded(files, names) <==> exists n :: n in names && n in files && files[n] == Stored(e)
  {
    if names != [] {
      var init, last := names[..|names| - 1], names[|names| - 1];
      LoadedMembers(files, init, e);
      assert names == init + [last];
    }
  }

  /** A readable file gives the employee that comes after those of the files before it. */
  lemma {:induction false} LoadedInOrder(files: Files, names: seq<string>, i: nat)
    requires i < |names| && names[i] in files && files[names[i]].Stored?
    ensures var k := |Loaded(files, names[..i])|;
      k < |Loaded(files, names)| && Loaded(files, names)[k] == files[names[i]].e
  {
    var init := names[..|names| - 1];
    if i < |init| {
      assert init[..i] == names[..i];
      LoadedInOrder(files, init, i);
    } else {
      assert init == names[..i];
    }
  }

  /**
  Writing, then loading, gives back exactly the employees that were written, if and only if no two of
  them share a file.
  */
  lemma LoadUndoesWrite(slug: Slug, employees: seq<Employee>, names: seq<string>)
    requires DistinctIds(employees) && Lists(names, Filed(slug, employees))
    ensures (forall e :: e in Loaded(Filed(slug, employees), names) <==> e in employees) <==>
            DistinctSlugs(slug, employees)
  {
    var files := Filed(slug, employees);
    forall e
      ensures e in Loaded(files, names) <==>
              exists i :: 0 <= i < |employees| && employees[i] == e && IsLast(slug, employees, i)
    {
      LoadedMembers(files, names, e);
      FiledHoldsLast(slug, employees, slug(e.id), e);
      if n :| n in names && n in files && files[n] == Stored(e) {
        FiledHoldsLast(slug, employees, n, e);
      }
    }
    if !DistinctSlugs(slug, employees) {
      var i, j :| 0 <= i < j < |employees| && slug(employees[i].id) == slug(employees[j].id);
      assert !IsLast(slug, employees, i);
      forall k | 0 <= k < |employees| && employees[k] == employees[i] ensures k == i {
      }
      assert employees[i] in employees && employees[i] !in Loaded(files, names);
    } else {
      forall e | e in employees ensures e in Loaded(files, names) {
        var i :| 0 <= i < |employees| && employees[i] == e;
        assert IsLast(slug, employees, i);
      }
    }
  }

  lemma {:induction false} LoadedCount(files: Files, names: seq<string>)
    requires forall n | n in names :: n in files && files[n].Stored?
    ensures |Loaded(files, names)| == |names|
  {
    if names != [] {
      assert names[|names| - 1] in names;
      LoadedCount(files, names[..|names| - 1]);
    }
  }

  /** Nothing stays in the directory but the files of these employees. */
  lemma FilesAreExpected(slug: Slug, employees: seq<Employee>, names: seq<string>)
    requires Lists(names, Filed(slug, employees))
    ensures forall n :: n in Filed(slug, employees) <==> exists e :: e in employees && slug(e.id) == n
    ensures |Loaded(Filed(slug, employees), names)| == |names|
  {
    FiledIsStored(slug, employees);
    forall n ensures n in Filed(slug, employees) <==> exists e :: e in employees && slug(e.id) == n {
      FiledNames(slug, employees, n);
    }
    LoadedCount(Filed(slug, employees), names);
  }

  lemma {:induction false} FiledNames(slug: Slug, employees: seq<Employee>, n: string)
    ensures n in Filed(slug, employees) <==> exists e :: e in employees && slug(e.id) == n
  {
    if employees != [] {
      var init, last := employees[..|employees| - 1], employees[|employees| - 1];
      FiledNames(slug, init, n);
      assert employees == init + [last];
    }
  }

  /** What is written is what normalizing puts in front of the placeholders. */
  lemma RealsAreWritten(lower: string -> string, raws: seq<Raw>)
    ensures WithoutPlaceholders(Normalized(ByKey(lower), raws)) == Sort(ByKey(lower), Reals(raws))
    ensures DistinctIds(Sort(ByKey(lower), Reals(raws)))
  {
    NormalizedIsWellFormed(lower, raws);
    DropPlaceholders(Sort(ByKey(lower), Reals(raws)), Placeholders(raws));
  }

  lemma {:induction false} DropPlaceholders(reals: seq<Employee>, placeholders: seq<Employee>)
    requires forall e | e in reals :: !e.metadata.placeholder
    requires forall e | e in placeholders :: e.metadata.placeholder
    ensures WithoutPlaceholders(reals + placeholders) == reals
    decreases |reals| + |placeholders|
  {
    if reals != [] {
      assert (reals + placeholders)[1..] == reals[1..] + placeholders;
      assert reals[0] in reals;
      DropPlaceholders(reals[1..], placeholders);
    } else if placeholders != [] {
      assert (reals + placeholders)[1..] == [] + placeholders[1..];
      assert placeholders[0] in placeholders;
      DropPlaceholders([], placeholders[1..]);
    }
  }
}
