/** Organization ids: made from display names, checked, turned into file names, and allocated. */
module OrganizationIds {
  import opened Text

  const MAX_ID := 64
  const RESERVED := "corporate"

  /** The library text functions: NFKD followed by dropping what is not ASCII, and `str.lower`. */
  datatype Tools = Tools(fold: string -> string, lower: string -> string)

  predicate IsSlugChar(c: char) {
    'a' <= c <= 'z' || '0' <= c <= '9' || c == '_' || c == '-'
  }

  predicate IsDash(c: char) {
    c == '_' || c == '-'
  }

  predicate IsAscii(s: string) {
    forall c | c in s :: c < '\U{80}'
  }

  /** Folding gives ASCII, and leaves ASCII alone. */
  ghost predicate FoldsToAscii(t: Tools) {
    forall s :: IsAscii(t.fold(s)) && (IsAscii(s) ==> t.fold(s) == s)
  }

  // --- the pipeline ---

  function LowerChar(c: char): char {
    if 'A' <= c <= 'Z' then (c as int + 32) as char else c
  }

  /** `lower` on ASCII text. */
  function Lower(s: string): string {
    seq(|s|, i requires 0 <= i < |s| => LowerChar(s[i]))
  }

  /** `re.sub(r"p+", "_", s)`: every maximal run of `p` becomes one underscore. */
  function SubRuns(s: string, p: char -> bool): string {
    if s == "" then ""
    else if !p(s[0]) then [s[0]] + SubRuns(s[1..], p)
    else if |s| > 1 && p(s[1]) then SubRuns(s[1..], p)
    else ['_'] + SubRuns(s[1..], p)
  }

  function StripLeft(s: string): (r: string)
    ensures r == "" || !IsDash(r[0])
    ensures |r| <= |s|
  {
    if s != "" && IsDash(s[0]) then StripLeft(s[1..]) else s
  }

  /** `s.rstrip("_-")` */
  function StripRight(s: string): (r: string)
    ensures r == "" || !IsDash(r[|r| - 1])
    ensures |r| <= |s|
  {
    if s != "" && IsDash(s[|s| - 1]) then StripRight(s[..|s| - 1]) else s
  }

  /** `s.strip("_-")` */
  function Strip(s: string): string {
    StripRight(StripLeft(s))
  }

  function Underscores(): char -> bool {
    c => c == '_'
  }

  function Foreign(): char -> bool {
    c => !IsSlugChar(c)
  }

  /** What is left of lower-case text once everything else has become single underscores. */
  function Cleaned(s: string): string {
    Strip(SubRuns(SubRuns(s, Foreign()), Underscores()))
  }

  function Prefix(s: string, n: nat): string {
    if |s| <= n then s else s[..n]
  }

  /** `slugify_organization_name` */
  function Slugify(t: Tools, name: string, fallback: string): string {
    var cleaned := Cleaned(SubRuns(Lower(t.fold(Trim(name))), c => IsSpace(c)));
    var lowered :=
      if cleaned != "" then cleaned else OrElse(Cleaned(t.lower(Trim(OrElse(fallback, "org")))), "org");
    OrElse(Strip(Prefix(lowered, MAX_ID)), "org")
  }

  // --- what the pipeline produces ---

  predicate AllSlug(s: string) {
    forall i | 0 <= i < |s| :: IsSlugChar(s[i])
  }

  predicate NoDouble(s: string) {
    forall i | 0 <= i < |s| - 1 :: !(s[i] == '_' && s[i + 1] == '_')
  }

  predicate Stripped(s: string) {
    s != "" && !IsDash(s[0]) && !IsDash(s[|s| - 1])
  }

  /** What a slug looks like. */
  predicate IsSlug(s: string) {
    AllSlug(s) && NoDouble(s) && Stripped(s) && |s| <= MAX_ID
  }

  lemma {:induction false} SubRunsRemoves(s: string, p: char -> bool)
    ensures forall i | 0 <= i < |SubRuns(s, p)| :: SubRuns(s, p)[i] == '_' || !p(SubRuns(s, p)[i])
  {
    if s != "" {
      SubRunsRemoves(s[1..], p);
    }
  }

  lemma {:induction false} SubRunsKeepsSlug(s: string, p: char -> bool)
    requires AllSlug(s)
    ensures AllSlug(SubRuns(s, p))
  {
    if s != "" {
      SubRunsKeepsSlug(s[1..], p);
    }
  }

  lemma {:induction false} SubRunsJoins(s: string)
    ensures NoDouble(SubRuns(s, Underscores()))
    ensures SubRuns(s, Underscores()) != "" <==> s != ""
    ensures s != "" ==> (SubRuns(s, Underscores())[0] == '_' <==> s[0] == '_')
  {
    if s != "" {
      SubRunsJoins(s[1..]);
    }
  }

  lemma {:induction false} StripLeftIsSuffix(s: string)
    ensures StripLeft(s) == s[|s| - |StripLeft(s)|..]
  {
    if s != "" && IsDash(s[0]) {
      StripLeftIsSuffix(s[1..]);
      var k := |s| - 1 - |StripLeft(s[1..])|;
      assert s[1..][k..] == s[k + 1..];
    }
  }

  lemma {:induction false} StripRightIsPrefix(s: string)
    ensures StripRight(s) == s[..|StripRight(s)|]
    ensures s != "" && !IsDash(s[0]) ==> StripRight(s) != "" && StripRight(s)[0] == s[0]
  {
    if s != "" && IsDash(s[|s| - 1]) {
      StripRightIsPrefix(s[..|s| - 1]);
    }
  }

  lemma StripKeepsShape(s: string)
    requires AllSlug(s) && NoDouble(s)
    ensures AllSlug(Strip(s)) && NoDouble(Strip(s)) && |Strip(s)| <= |s|
    ensures Strip(s) == "" || Stripped(Strip(s))
  {
    StripLeftIsSuffix(s);
    var left := StripLeft(s);
    assert forall i | 0 <= i < |left| :: left[i] == s[i + |s| - |left|];
    StripRightIsPrefix(left);
  }

  lemma CleanedShape(s: string)
    ensures AllSlug(Cleaned(s)) && NoDouble(Cleaned(s))
    ensures Cleaned(s) == "" || Stripped(Cleaned(s))
  {
    var once := SubRuns(s, Foreign());
    SubRunsRemoves(s, Foreign());
    assert AllSlug(once);
    SubRunsKeepsSlug(once, Underscores());
    SubRunsJoins(once);
    StripKeepsShape(SubRuns(once, Underscores()));
  }

  lemma OrgIsSlug()
    ensures IsSlug("org")
  {
    assert "org"[0] == 'o' && "org"[1] == 'r' && "org"[2] == 'g';
  }

  /** Every name, and every fallback, gives a slug. */
  lemma SlugifyGivesSlug(t: Tools, name: string, fallback: string)
    ensures IsSlug(Slugify(t, name, fallback))
  {
    OrgIsSlug();
    CleanedShape(SubRuns(Lower(t.fold(Trim(name))), c => IsSpace(c)));
    CleanedShape(t.lower(Trim(OrElse(fallback, "org"))));
    var cleaned := Cleaned(SubRuns(Lower(t.fold(Trim(name))), c => IsSpace(c)));
    var lowered := if cleaned != "" then cleaned else OrElse(Cleaned(t.lower(Trim(OrElse(fallback, "org")))), "org");
    assert AllSlug(lowered) && NoDouble(lowered) && Stripped(lowered);
    StripKeepsShape(Prefix(lowered, MAX_ID));
  }

  lemma {:induction false} SubRunsIdle(s: string, p: char -> bool)
    requires forall i | 0 <= i < |s| :: !p(s[i])
    ensures SubRuns(s, p) == s
  {
    if s != "" {
      SubRunsIdle(s[1..], p);
    }
  }

  lemma {:induction false} NoDoubleIsKept(s: string)
    requires NoDouble(s)
    ensures SubRuns(s, Underscores()) == s
  {
    if s != "" {
      assert NoDouble(s[1..]) by { assert forall i | 0 <= i < |s| - 1 :: s[1..][i] == s[i + 1]; }
      NoDoubleIsKept(s[1..]);
    }
  }

  lemma CleanedIsKept(s: string)
    requires AllSlug(s) && NoDouble(s) && Stripped(s)
    ensures Cleaned(s) == s
  {
    SubRunsIdle(s, Foreign());
    NoDoubleIsKept(s);
  }

  lemma LowerIsKept(s: string)
    requires AllSlug(s)
    ensures Lower(s) == s && IsAscii(s)
  {
    assert forall i | 0 <= i < |s| :: IsSlugChar(s[i]) && LowerChar(s[i]) == s[i];
  }

  /** A slug is its own slug. */
  lemma SlugIsKept(t: Tools, s: string, fallback: string)
    requires FoldsToAscii(t) && IsSlug(s)
    ensures Slugify(t, s, fallback) == s
  {
    assert forall i | 0 <= i < |s| :: IsSlugChar(s[i]) && !IsSpace(s[i]);
    TrimIsTrimmed(s);
    LowerIsKept(s);
    SubRunsIdle(s, c => IsSpace(c));
    CleanedIsKept(s);
    assert Strip(s) == s;
  }

  /** Slugifying twice is slugifying once. */
  lemma SlugifyIsIdempotent(t: Tools, name: string, fallback: string)
    requires FoldsToAscii(t)
    ensures Slugify(t, Slugify(t, name, fallback), fallback) == Slugify(t, name, fallback)
  {
    SlugifyGivesSlug(t, name, fallback);
    SlugIsKept(t, Slugify(t, name, fallback), fallback);
  }

  // --- what a slug keeps of the name ---

  predicate IsAlnum(c: char) {
    'a' <= c <= 'z' || '0' <= c <= '9'
  }

  /** The characters of a text that satisfy `p`, in order. */
  function Keep(s: string, p: char -> bool): string {
    if s == "" then "" else if p(s[0]) then [s[0]] + Keep(s[1..], p) else Keep(s[1..], p)
  }

  lemma {:induction false} KeepOfConcat(a: string, b: string, p: char -> bool)
    ensures Keep(a + b, p) == Keep(a, p) + Keep(b, p)
  {
    if a == "" {
      assert a + b == b;
    } else {
      var later := Keep(a[1..], p);
      assert (a + b)[1..] == a[1..] + b && (a + b)[0] == a[0];
      KeepOfConcat(a[1..], b, p);
      assert ([a[0]] + later) + Keep(b, p) == [a[0]] + (later + Keep(b, p));
    }
  }

  lemma KeepOfOne(c: char, p: char -> bool)
    ensures Keep([c], p) == if p(c) then [c] else []
  {
    assert Keep([c][1..], p) == [];
  }

  lemma {:induction false} SubRunsKeeps(s: string, runs: char -> bool, p: char -> bool)
    requires !p('_') && forall c | runs(c) :: !p(c)
    ensures Keep(SubRuns(s, runs), p) == Keep(s, p) && |SubRuns(s, runs)| <= |s|
  {
    if s != "" {
      SubRunsKeeps(s[1..], runs, p);
      KeepOfOne(s[0], p);
      KeepOfOne('_', p);
      KeepOfConcat([s[0]], SubRuns(s[1..], runs), p);
      KeepOfConcat(['_'], SubRuns(s[1..], runs), p);
    }
  }

  lemma {:induction false} StripLeftKeeps(s: string, p: char -> bool)
    requires !p('_') && !p('-')
    ensures Keep(StripLeft(s), p) == Keep(s, p)
  {
    if s != "" && IsDash(s[0]) { StripLeftKeeps(s[1..], p); }
  }

  lemma {:induction false} StripRightKeeps(s: string, p: char -> bool)
    requires !p('_') && !p('-')
    ensures Keep(StripRight(s), p) == Keep(s, p)
  {
    if s != "" && IsDash(s[|s| - 1]) {
      var init := s[..|s| - 1];
      StripRightKeeps(init, p);
      assert s == init + [s[|s| - 1]];
      KeepOfConcat(init, [s[|s| - 1]], p);
      KeepOfOne(s[|s| - 1], p);
    }
  }

  function Alnum(): char -> bool {
    c => IsAlnum(c)
  }

  lemma CleanedKeeps(s: string)
    ensures Keep(Cleaned(s), Alnum()) == Keep(s, Alnum()) && |Cleaned(s)| <= |s|
  {
    var once := SubRuns(s, Foreign());
    var twice := SubRuns(once, Underscores());
    SubRunsKeeps(s, Foreign(), Alnum());
    SubRunsKeeps(once, Underscores(), Alnum());
    StripLeftKeeps(twice, Alnum());
    StripRightKeeps(StripLeft(twice), Alnum());
  }

  lemma StripKeeps(s: string)
    ensures Keep(Strip(s), Alnum()) == Keep(s, Alnum())
  {
    StripLeftKeeps(s, Alnum());
    StripRightKeeps(StripLeft(s), Alnum());
  }

  /**
  The slug has the letters and digits of the name, folded and in lower case: all of them and in order,
  as far as they fit.  Only a name without any gives the fallback.
  */
  lemma SlugKeepsLettersAndDigits(t: Tools, name: string, fallback: string)
    requires Keep(Lower(t.fold(Trim(name))), Alnum()) != ""
    ensures var kept, all := Keep(Slugify(t, name, fallback), Alnum()), Keep(Lower(t.fold(Trim(name))), Alnum());
      kept <= all && (|t.fold(Trim(name))| <= MAX_ID ==> kept == all)
  {
    var lowered := Lower(t.fold(Trim(name)));
    var spaced := SubRuns(lowered, c => IsSpace(c));
    SubRunsKeeps(lowered, c => IsSpace(c), Alnum());
    CleanedKeeps(spaced);
    CleanedShape(spaced);
    var cleaned := Cleaned(spaced);
    var cut := Prefix(cleaned, MAX_ID);
    assert cleaned == cut + cleaned[|cut|..];
    KeepOfConcat(cut, cleaned[|cut|..], Alnum());
    StripKeeps(cut);
    StripRightIsPrefix(cut);
  }
}
