/** What a slug is made of, read off the name in one pass. */
module OrganizationSlugs {
  import opened Text
  import opened OrganizationIds

  predicate MayStay(c: char) {
    'a' <= c <= 'z' || '0' <= c <= '9' || c == '_' || c == '-'
  }

  /** Every character that a slug may not have becomes an underscore. */
  function Marked(s: string): string {
    seq(|s|, i requires 0 <= i < |s| => if MayStay(s[i]) then s[i] else '_')
  }

  /** Text in which no two underscores stand beside each other: of a run of them only one is left. */
  function Squeezed(s: string): string {
    if s == "" then ""
    else
      var init, last := s[..|s| - 1], s[|s| - 1];
      if last == '_' && init != "" && init[|init| - 1] == '_' then Squeezed(init) else Squeezed(init) + [last]
  }

  lemma MarkedHead(s: string)
    requires s != ""
    ensures Marked(s) == [if IsSlugChar(s[0]) then s[0] else '_'] + Marked(s[1..])
  {
  }

  /** `SubRuns` of underscores, one character at a time. */
  lemma RunsHead(c: char, rest: string)
    ensures SubRuns([c] + rest, Underscores()) ==
            if c == '_' && rest != "" && rest[0] == '_' then SubRuns(rest, Underscores())
            else [c] + SubRuns(rest, Underscores())
  {
    assert ([c] + rest)[1..] == rest;
  }

  lemma {:induction false} SqueezedIsSubRuns(s: string)
    ensures SubRuns(s, Underscores()) == Squeezed(s)
  {
    if s != "" {
      var init, last := s[..|s| - 1], s[|s| - 1];
      SqueezedIsSubRuns(init);
      assert s == init + [last];
      RunsOfOneMore(init, last);
    }
  }

  lemma {:induction false} RunsOfOneMore(init: string, last: char)
    ensures SubRuns(init + [last], Underscores()) ==
            if last == '_' && init != "" && init[|init| - 1] == '_' then SubRuns(init, Underscores())
            else SubRuns(init, Underscores()) + [last]
  {
    if init == "" {
      assert init + [last] == [last] && [last] + [] == [last];
      RunsHead(last, "");
    } else {
      var c, rest := init[0], init[1..];
      assert init + [last] == [c] + (rest + [last]) && init == [c] + rest;
      RunsHead(c, rest + [last]);
      RunsHead(c, rest);
      RunsOfOneMore(rest, last);
      assert ([c] + SubRuns(rest, Underscores())) + [last] == [c] + (SubRuns(rest, Underscores()) + [last]);
    }
  }

  /** Shortening runs of foreign characters first makes no difference. */
  lemma {:induction false} RunsDoNotMatter(s: string, p: char -> bool)
    requires forall c | p(c) :: !IsSlugChar(c)
    ensures SubRuns(Marked(SubRuns(s, p)), Underscores()) == SubRuns(Marked(s), Underscores())
    ensures SubRuns(s, p) == "" <==> s == ""
    ensures s != "" ==> Marked(SubRuns(s, p))[0] == Marked(s)[0]
  {
    if s != "" {
      var rest := SubRuns(s[1..], p);
      var m := if IsSlugChar(s[0]) then s[0] else '_';
      RunsDoNotMatter(s[1..], p);
      MarkedHead(s);
      RunsHead(m, Marked(s[1..]));
      if p(s[0]) && |s| > 1 && p(s[1]) {
        assert Marked(s[1..])[0] == '_';
      } else {
        var c := if p(s[0]) then '_' else s[0];
        assert SubRuns(s, p) == [c] + rest;
        MarkedHead([c] + rest);
        assert ([c] + rest)[1..] == rest;
        RunsHead(m, Marked(rest));
      }
    }
  }

  lemma MarkedIsIdle(s: string)
    requires forall i | 0 <= i < |s| :: IsSlugChar(s[i])
    ensures Marked(s) == s
  {
  }

  /** Two or three substitutions one after the other are one pass over the text. */
  lemma CleanedIsOnePass(s: string)
    ensures Cleaned(s) == Strip(Squeezed(Marked(s)))
    ensures Cleaned(SubRuns(s, c => IsSpace(c))) == Strip(Squeezed(Marked(s)))
  {
    ForeignRuns(s);
    ForeignRuns(SubRuns(s, c => IsSpace(c)));
    RunsDoNotMatter(s, c => IsSpace(c));
    SqueezedIsSubRuns(Marked(s));
  }

  lemma ForeignRuns(s: string)
    ensures SubRuns(SubRuns(s, Foreign()), Underscores()) == SubRuns(Marked(s), Underscores())
  {
    SubRunsRemoves(s, Foreign());
    MarkedIsIdle(SubRuns(s, Foreign()));
    RunsDoNotMatter(s, Foreign());
  }

  // --- stripping ---

  ghost predicate AllDashes(s: string) {
    forall c | c in s :: c == '_' || c == '-'
  }

  ghost predicate IsBetweenDashes(s: string, left: string, core: string, right: string) {
    s == left + core + right && AllDashes(left) && AllDashes(right)
  }

  /** What is stripped off are dashes, and none is left at either end. */
  ghost predicate IsStripped(s: string, core: string) {
    && (exists left, right :: IsBetweenDashes(s, left, core, right))
    && (core != "" ==> core[0] != '_' && core[0] != '-' && core[|core| - 1] != '_' && core[|core| - 1] != '-')
  }

  lemma {:induction false} DashesOnTheLeft(s: string)
    ensures AllDashes(s[..|s| - |StripLeft(s)|])
  {
    if s != "" && IsDash(s[0]) {
      DashesOnTheLeft(s[1..]);
      assert s[..|s| - |StripLeft(s)|] == [s[0]] + s[1..][..|s| - 1 - |StripLeft(s)|];
    }
  }

  lemma {:induction false} DashesOnTheRight(s: string)
    ensures StripRight(s) == s[..|StripRight(s)|] && AllDashes(s[|StripRight(s)|..])
  {
    if s != "" && IsDash(s[|s| - 1]) {
      DashesOnTheRight(s[..|s| - 1]);
      assert s[|StripRight(s)|..] == s[..|s| - 1][|StripRight(s)|..] + [s[|s| - 1]];
    }
  }

  lemma CutInThree(s: string, i: nat, j: nat)
    requires i <= j <= |s|
    ensures s == s[..i] + s[i..j] + s[j..]
  {
  }

  lemma StripIsExact(s: string)
    ensures IsStripped(s, Strip(s))
  {
    var inner, core := StripLeft(s), Strip(s);
    var i := |s| - |inner|;
    StripLeftIsSuffix(s);
    DashesOnTheLeft(s);
    DashesOnTheRight(inner);
    StripRightIsPrefix(inner);
    StripEnds(s);
    hide StripLeft, StripRight;
    assert core == s[i..i + |core|] && inner[|core|..] == s[i + |core|..];
    CutInThree(s, i, i + |core|);
    assert IsBetweenDashes(s, s[..i], core, s[i + |core|..]);
  }

  lemma StripEnds(s: string)
    ensures Strip(s) != "" ==> !IsDash(Strip(s)[0]) && !IsDash(Strip(s)[|Strip(s)| - 1])
  {
    StripRightIsPrefix(StripLeft(s));
  }

  // --- the whole slug ---

  /**
  The slug is what one pass makes of the folded name in lower case, stripped of dashes, cut at 64
  characters and stripped again.  Only when nothing is left of the name is the fallback taken instead, and
  only when nothing is left of that either the word "org".
  */
  lemma SlugIsExact(t: Tools, name: string, fallback: string) returns (ofName: string, ofFallback: string)
    ensures IsStripped(Squeezed(Marked(Lower(t.fold(Trim(name))))), ofName)
    ensures IsStripped(Squeezed(Marked(t.lower(Trim(if fallback == "" then "org" else fallback)))), ofFallback)
    ensures var whole := if ofName != "" then ofName else if ofFallback != "" then ofFallback else "org";
      if |whole| <= 64 then Slugify(t, name, fallback) == whole
      else IsStripped(whole[..64], Slugify(t, name, fallback))
  {
    hide Cleaned, Squeezed, SubRuns, Strip, Trim, Lower;
    var folded := Lower(t.fold(Trim(name)));
    var other := t.lower(Trim(OrElse(fallback, "org")));
    ofName, ofFallback := Cleaned(SubRuns(folded, c => IsSpace(c))), Cleaned(other);
    CleanedIsOnePass(folded);
    CleanedIsOnePass(other);
    StripIsExact(Squeezed(Marked(folded)));
    StripIsExact(Squeezed(Marked(other)));
    var whole := if ofName != "" then ofName else OrElse(ofFallback, "org");
    NoDashAtTheEnds(whole);
    CutIsKept(whole);
  }

  /** Text that begins with no dash has something left when it is cut and stripped. */
  lemma CutIsKept(whole: string)
    requires whole != "" && !IsDash(whole[0]) && !IsDash(whole[|whole| - 1])
    ensures OrElse(Strip(Prefix(whole, MAX_ID)), "org") == Strip(Prefix(whole, MAX_ID))
    ensures |whole| <= MAX_ID ==> Strip(Prefix(whole, MAX_ID)) == whole
    ensures |whole| > MAX_ID ==> IsStripped(whole[..MAX_ID], Strip(Prefix(whole, MAX_ID)))
  {
    var cut := Prefix(whole, MAX_ID);
    StripIsExact(cut);
    StripRightIsPrefix(cut);
  }

  lemma NoDashAtTheEnds(whole: string)
    requires whole == "org" || (whole != "" && !IsDash(whole[0]) && !IsDash(whole[|whole| - 1]))
    ensures !IsDash(whole[0]) && !IsDash(whole[|whole| - 1])
  {
    assert "org"[0] == 'o' && "org"[2] == 'g';
  }
}
