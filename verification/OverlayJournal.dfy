/**
The recovery journal of the shell-review overlay: what the writer puts into it, what the reader
accepts, and that the reader undoes the writer.
*/
module OverlayJournal {
  import opened Wrappers
  import opened Base64

  /** The permission bits of a file mode (`stat.S_IMODE`). */
  type Mode = m: nat | m <= MAX_MODE

  const MAX_MODE := 0xFFF
  const MAX_LEGACY_MODE := 0xFFFF

  function Permissions(mode: nat): Mode {
    mode % (MAX_MODE + 1)
  }

  /** The two byte forms that an installed overlay can take. */
  datatype Forms = Forms(raw: Bytes, normalized: Bytes)

  /** The code that the protocol calls and does not look into: SHA-256, and the two YAML renderers. */
  datatype Tools = Tools(digest: Bytes -> string, forms: Bytes -> Option<Forms>)

  /** The member names of a journal object. */
  datatype Name =
    | Version | ConfigPath | OriginalMode
    | OriginalBase64 | OriginalHash
    | RawBase64 | RawHash
    | NormalizedBase64 | NormalizedHash
    | LegacyOverlayHash
    | OtherName(name: string)

  /** A JSON value, as far as the reader tells values apart. */
  datatype Value = Text(text: string) | Number(n: int) | Flag(b: bool) | Compound

  type Pairs = seq<(Name, Value)>

  /** The members of an object, looked up by name. */
  datatype Members = Members(
    version: Option<Value>, configPath: Option<Value>, originalMode: Option<Value>,
    original: Option<Value>, originalHash: Option<Value>,
    raw: Option<Value>, rawHash: Option<Value>,
    normalized: Option<Value>, normalizedHash: Option<Value>,
    legacyOverlayHash: Option<Value>, others: set<string>)

  /** The content of the journal file, decoded and parsed as far as it can be. */
  datatype Document = Garbled | NotAnObject | Object(pairs: Pairs)

  datatype Part = Original | RawOverlay | NormalizedOverlay

  datatype Error =
    | CannotRead | Unsupported | Incomplete | ForeignPath | InvalidMode
    | InvalidBytes(part: Part) | InvalidHash(part: Part) | CannotReconstruct | FormMismatch(part: Part)

  /** What recovery learns from an accepted journal. */
  datatype Parsed = Parsed(original: Bytes, mode: Mode, forms: Forms)

  // --- the reader ---

  predicate Unrepeated(pairs: Pairs) {
    forall i, j | 0 <= i < j < |pairs| :: pairs[i].0 != pairs[j].0
  }

  function Lookup(pairs: Pairs, name: Name): Option<Value> {
    if pairs == [] then None
    else if pairs[|pairs| - 1].0 == name then Some(pairs[|pairs| - 1].1)
    else Lookup(pairs[..|pairs| - 1], name)
  }

  function OtherNames(pairs: Pairs): set<string> {
    set p | p in pairs && p.0.OtherName? :: p.0.name
  }

  function MembersOf(pairs: Pairs): Members {
    Members(
      Lookup(pairs, Version), Lookup(pairs, ConfigPath), Lookup(pairs, OriginalMode),
      Lookup(pairs, OriginalBase64), Lookup(pairs, OriginalHash),
      Lookup(pairs, RawBase64), Lookup(pairs, RawHash),
      Lookup(pairs, NormalizedBase64), Lookup(pairs, NormalizedHash),
      Lookup(pairs, LegacyOverlayHash), OtherNames(pairs))
  }

  /** `key in result` */
  predicate Has(m: Members, name: Name) {
    match name
    case Version => m.version.Some?
    case ConfigPath => m.configPath.Some?
    case OriginalMode => m.originalMode.Some?
    case OriginalBase64 => m.original.Some?
    case OriginalHash => m.originalHash.Some?
    case RawBase64 => m.raw.Some?
    case RawHash => m.rawHash.Some?
    case NormalizedBase64 => m.normalized.Some?
    case NormalizedHash => m.normalizedHash.Some?
    case LegacyOverlayHash => m.legacyOverlayHash.Some?
    case OtherName(other) => other in m.others
  }

  /** `result[key] = value` */
  function With(m: Members, name: Name, value: Value): Members {
    match name
    case Version => m.(version := Some(value))
    case ConfigPath => m.(configPath := Some(value))
    case OriginalMode => m.(originalMode := Some(value))
    case OriginalBase64 => m.(original := Some(value))
    case OriginalHash => m.(originalHash := Some(value))
    case RawBase64 => m.(raw := Some(value))
    case RawHash => m.(rawHash := Some(value))
    case NormalizedBase64 => m.(normalized := Some(value))
    case NormalizedHash => m.(normalizedHash := Some(value))
    case LegacyOverlayHash => m.(legacyOverlayHash := Some(value))
    case OtherName(other) => m.(others := m.others + {other})
  }

  lemma {:induction false} LookupFinds(pairs: Pairs, name: Name)
    ensures Lookup(pairs, name).Some? <==> exists i :: 0 <= i < |pairs| && pairs[i].0 == name
    ensures Unrepeated(pairs) ==>
      forall i | 0 <= i < |pairs| && pairs[i].0 == name :: Lookup(pairs, name) == Some(pairs[i].1)
  {
    if pairs != [] {
      LookupFinds(pairs[..|pairs| - 1], name);
    }
  }

  lemma HasFinds(pairs: Pairs, name: Name)
    ensures Has(MembersOf(pairs), name) <==> exists i :: 0 <= i < |pairs| && pairs[i].0 == name
  {
    if name.OtherName? {
      if i :| 0 <= i < |pairs| && pairs[i].0 == name { assert pairs[i] in pairs; }
    } else {
      LookupFinds(pairs, name);
    }
  }

  lemma MembersOfNext(pairs: Pairs, name: Name, value: Value)
    ensures MembersOf(pairs + [(name, value)]) == With(MembersOf(pairs), name, value)
  {
    var longer := pairs + [(name, value)];
    assert longer[..|pairs|] == pairs;
    assert forall other :: Lookup(longer, other) == if other == name then Some(value) else Lookup(pairs, other);
    assert OtherNames(longer) == OtherNames(pairs) + if name.OtherName? then {name.name} else {};
  }

  /** `_strict_json_object`: a member given twice makes the object ambiguous. */
  method StrictJsonObject(pairs: Pairs) returns (members: Option<Members>)
    ensures members.Some? <==> Unrepeated(pairs)
    ensures members.Some? ==> members.value == MembersOf(pairs)
  {
    var result := Members(None, None, None, None, None, None, None, None, None, None, {});
    for i := 0 to |pairs|
      invariant Unrepeated(pairs[..i]) && result == MembersOf(pairs[..i])
    {
      var (key, value) := pairs[i];
      HasFinds(pairs[..i], key);
      if Has(result, key) {
        return None;
      }
      assert pairs[..i + 1] == pairs[..i] + [(key, value)];
      MembersOfNext(pairs[..i], key, value);
      result := With(result, key, value);
    }
    assert pairs[..|pairs|] == pairs;
    return Some(result);
  }

  /** The fields of a version 2 journal and no others. */
  predicate HasCurrentFields(m: Members) {
    && m.version.Some? && m.configPath.Some? && m.originalMode.Some?
    && m.original.Some? && m.originalHash.Some?
    && m.raw.Some? && m.rawHash.Some? && m.normalized.Some? && m.normalizedHash.Some?
    && m.legacyOverlayHash.None? && m.others == {}
  }

  /** The fields of a version 1 journal and no others. */
  predicate HasLegacyFields(m: Members) {
    && m.version.Some? && m.configPath.Some? && m.originalMode.Some?
    && m.original.Some? && m.originalHash.Some?
    && m.raw.None? && m.rawHash.None? && m.normalized.None? && m.normalizedHash.None?
    && m.legacyOverlayHash.Some? && m.others == {}
  }

  predicate IsHash(text: string) {
    |text| == 64 && forall c | c in text :: '0' <= c <= '9' || 'a' <= c <= 'f'
  }

  /** `_decode_journal_bytes` */
  function BytesIn(value: Value): Option<Bytes> {
    if value.Text? then DecodeCanonical(value.text) else None
  }

  /** `_validate_journal_hash` */
  predicate HashMatches(t: Tools, bytes: Bytes, value: Value) {
    value.Text? && IsHash(value.text) && t.digest(bytes) == value.text
  }

  /** Journaled bytes, which must have their journaled hash. */
  function ReadBytes(t: Tools, bytes: Value, hash: Value, part: Part): Result<Bytes, Error> {
    var payload := BytesIn(bytes);
    if payload.None? then Err(InvalidBytes(part))
    else if !HashMatches(t, payload.value, hash) then Err(InvalidHash(part))
    else Ok(payload.value)
  }

  /** The overlay forms of a current journal must be written out, and be the recomputed ones. */
  function ReadForms(t: Tools, m: Members, recomputed: Forms): Result<Forms, Error>
    requires HasCurrentFields(m)
  {
    var raw := ReadBytes(t, m.raw.value, m.rawHash.value, RawOverlay);
    var normalized := ReadBytes(t, m.normalized.value, m.normalizedHash.value, NormalizedOverlay);
    if raw.Err? then Err(raw.error)
    else if normalized.Err? then Err(normalized.error)
    else if raw.value != recomputed.raw then Err(FormMismatch(RawOverlay))
    else if normalized.value != recomputed.normalized then Err(FormMismatch(NormalizedOverlay))
    else Ok(recomputed)
  }

  /** A legacy journal carries no more than the hash of the raw overlay. */
  function ReadLegacyForms(t: Tools, m: Members, recomputed: Forms): Result<Forms, Error>
    requires HasLegacyFields(m)
  {
    if HashMatches(t, recomputed.raw, m.legacyOverlayHash.value) then Ok(recomputed) else Err(InvalidHash(RawOverlay))
  }

  predicate IsLegacy(m: Members) {
    m.version == Some(Number(1))
  }

  predicate HasFields(m: Members) {
    if IsLegacy(m) then HasLegacyFields(m) else HasCurrentFields(m)
  }

  function ModeLimit(m: Members): nat {
    if IsLegacy(m) then MAX_LEGACY_MODE else MAX_MODE
  }

  /** What is wrong with everything but the journaled bytes. */
  function HeaderError(path: string, m: Members): (e: Option<Error>)
    ensures e.None? ==> HasFields(m) && m.originalMode.value.Number? && 0 <= m.originalMode.value.n <= ModeLimit(m)
  {
    if m.version != Some(Number(1)) && m.version != Some(Number(2)) then Some(Unsupported)
    else if !HasFields(m) then Some(Incomplete)
    else if m.configPath != Some(Text(path)) then Some(ForeignPath)
    else if !m.originalMode.value.Number? || !(0 <= m.originalMode.value.n <= ModeLimit(m)) then Some(InvalidMode)
    else None
  }

  function ReadOverlay(t: Tools, m: Members, original: Bytes): Result<Parsed, Error>
    requires HasFields(m) && m.originalMode.value.Number? && m.originalMode.value.n >= 0
  {
    var recomputed := t.forms(original);
    if recomputed.None? then Err(CannotReconstruct)
    else
      var forms := if IsLegacy(m) then ReadLegacyForms(t, m, recomputed.value) else ReadForms(t, m, recomputed.value);
      if forms.Err? then Err(forms.error) else Ok(Parsed(original, Permissions(m.originalMode.value.n), forms.value))
  }

  /** `_read_journal`, on the members of an unambiguous object. */
  function ReadMembers(t: Tools, path: string, m: Members): Result<Parsed, Error> {
    var bad := HeaderError(path, m);
    if bad.Some? then Err(bad.value)
    else
      var original := ReadBytes(t, m.original.value, m.originalHash.value, Original);
      if original.Err? then Err(original.error) else ReadOverlay(t, m, original.value)
  }

  /** `_read_journal` */
  function ReadJournal(t: Tools, path: string, document: Document): Result<Parsed, Error> {
    match document
    case Garbled => Err(CannotRead)
    case NotAnObject => Err(Unsupported)
    case Object(pairs) => if Unrepeated(pairs) then ReadMembers(t, path, MembersOf(pairs)) else Err(CannotRead)
  }

  // --- the writer ---

  /** The members that `install` journals, in the order of their names. */
  function JournalPairs(t: Tools, path: string, original: Bytes, mode: Mode, forms: Forms): Pairs {
    [(ConfigPath, Text(path)),
     (NormalizedBase64, Text(Encode(forms.normalized))), (NormalizedHash, Text(t.digest(forms.normalized))),
     (OriginalBase64, Text(Encode(original))), (OriginalMode, Number(mode)), (OriginalHash, Text(t.digest(original))),
     (RawBase64, Text(Encode(forms.raw))), (RawHash, Text(t.digest(forms.raw))),
     (Version, Number(2))]
  }

  function Journal(t: Tools, path: string, original: Bytes, mode: Mode, forms: Forms): Document {
    Object(JournalPairs(t, path, original, mode, forms))
  }

  /** The same members, looked up by name. */
  function JournalMembers(t: Tools, path: string, original: Bytes, mode: Mode, forms: Forms): Members {
    Members(
      Some(Number(2)), Some(Text(path)), Some(Number(mode)),
      Some(Text(Encode(original))), Some(Text(t.digest(original))),
      Some(Text(Encode(forms.raw))), Some(Text(t.digest(forms.raw))),
      Some(Text(Encode(forms.normalized))), Some(Text(t.digest(forms.normalized))),
      None, {})
  }

  /** The members of a journal written before version 2; it recorded the whole mode. */
  function LegacyMembers(t: Tools, path: string, original: Bytes, mode: nat, forms: Forms): Members {
    Members(
      Some(Number(1)), Some(Text(path)), Some(Number(mode)),
      Some(Text(Encode(original))), Some(Text(t.digest(original))),
      None, None, None, None,
      Some(Text(t.digest(forms.raw))), {})
  }

  // --- what reading and writing have to do with each other ---

  /** A digest is always 64 hexadecimal digits. */
  ghost predicate DigestsAreHashes(t: Tools) {
    forall bytes :: IsHash(t.digest(bytes))
  }

  lemma ReadBytesUndoesEncode(t: Tools, bytes: Bytes, value: Value, hash: Value, part: Part)
    requires DigestsAreHashes(t)
    ensures ReadBytes(t, value, hash, part) == Ok(bytes) <==>
            value == Text(Encode(bytes)) && hash == Text(t.digest(bytes))
  {
    if value.Text? { CanonicalIsEncoded(value.text, bytes); }
    assert IsHash(t.digest(bytes));
  }

  lemma LookupAt(pairs: Pairs, i: nat, name: Name, value: Value)
    requires Unrepeated(pairs) && i < |pairs| && pairs[i] == (name, value)
    ensures Lookup(pairs, name) == Some(value)
  {
    LookupFinds(pairs, name);
  }

  lemma WrittenMembers(t: Tools, path: string, original: Bytes, mode: Mode, forms: Forms)
    ensures Unrepeated(JournalPairs(t, path, original, mode, forms))
    ensures MembersOf(JournalPairs(t, path, original, mode, forms)) == JournalMembers(t, path, original, mode, forms)
  {
    var pairs, m := JournalPairs(t, path, original, mode, forms), JournalMembers(t, path, original, mode, forms);
    LookupAt(pairs, 0, ConfigPath, m.configPath.value);
    LookupAt(pairs, 1, NormalizedBase64, m.normalized.value);
    LookupAt(pairs, 2, NormalizedHash, m.normalizedHash.value);
    LookupAt(pairs, 3, OriginalBase64, m.original.value);
    LookupAt(pairs, 4, OriginalMode, m.originalMode.value);
    LookupAt(pairs, 5, OriginalHash, m.originalHash.value);
    LookupAt(pairs, 6, RawBase64, m.raw.value);
    LookupAt(pairs, 7, RawHash, m.rawHash.value);
    LookupAt(pairs, 8, Version, m.version.value);
    LookupFinds(pairs, LegacyOverlayHash);
    assert OtherNames(pairs) == {};
  }

  lemma ReadFormsOnlyTheWritten(t: Tools, m: Members, forms: Forms)
    requires DigestsAreHashes(t) && HasCurrentFields(m) && ReadForms(t, m, forms) == Ok(forms)
    ensures m.raw == Some(Text(Encode(forms.raw))) && m.rawHash == Some(Text(t.digest(forms.raw)))
    ensures m.normalized == Some(Text(Encode(forms.normalized)))
    ensures m.normalizedHash == Some(Text(t.digest(forms.normalized)))
  {
    ReadBytesUndoesEncode(t, forms.raw, m.raw.value, m.rawHash.value, RawOverlay);
    ReadBytesUndoesEncode(t, forms.normalized, m.normalized.value, m.normalizedHash.value, NormalizedOverlay);
  }

  lemma PermissionsOfMode(mode: nat)
    requires mode <= MAX_MODE
    ensures Permissions(mode) == mode
  {
  }

  lemma OverlayParts(t: Tools, m: Members, original: Bytes, p: Parsed)
    requires HasCurrentFields(m) && !IsLegacy(m) && m.originalMode.value.Number? && m.originalMode.value.n >= 0
    requires ReadOverlay(t, m, original) == Ok(p)
    ensures original == p.original && p.mode == Permissions(m.originalMode.value.n)
    ensures t.forms(original) == Some(p.forms) && ReadForms(t, m, p.forms) == Ok(p.forms)
  {
  }

  lemma AcceptedParts(t: Tools, path: string, m: Members, p: Parsed)
    requires m.version == Some(Number(2)) && ReadMembers(t, path, m) == Ok(p)
    ensures HasCurrentFields(m) && m.configPath == Some(Text(path)) && m.originalMode == Some(Number(p.mode))
    ensures ReadBytes(t, m.original.value, m.originalHash.value, Original) == Ok(p.original)
    ensures t.forms(p.original) == Some(p.forms) && ReadForms(t, m, p.forms) == Ok(p.forms)
  {
    assert HeaderError(path, m).None?;
    PermissionsOfMode(m.originalMode.value.n);
    var original := ReadBytes(t, m.original.value, m.originalHash.value, Original).value;
    assert ReadOverlay(t, m, original) == Ok(p);
    OverlayParts(t, m, original, p);
  }

  /** The reader accepts no members but those that the writer writes for the values it reads from them. */
  lemma ReadsOnlyTheWritten(t: Tools, path: string, m: Members, p: Parsed)
    requires DigestsAreHashes(t) && m.version == Some(Number(2)) && ReadMembers(t, path, m) == Ok(p)
    ensures t.forms(p.original) == Some(p.forms) && m == JournalMembers(t, path, p.original, p.mode, p.forms)
  {
    AcceptedParts(t, path, m, p);
    ReadBytesUndoesEncode(t, p.original, m.original.value, m.originalHash.value, Original);
    ReadFormsOnlyTheWritten(t, m, p.forms);
  }

  lemma ReadsTheWritten(t: Tools, path: string, p: Parsed)
    requires DigestsAreHashes(t) && t.forms(p.original) == Some(p.forms)
    ensures ReadMembers(t, path, JournalMembers(t, path, p.original, p.mode, p.forms)) == Ok(p)
  {
    var m := JournalMembers(t, path, p.original, p.mode, p.forms);
    PermissionsOfMode(p.mode);
    ReadBytesUndoesEncode(t, p.original, m.original.value, m.originalHash.value, Original);
    ReadBytesUndoesEncode(t, p.forms.raw, m.raw.value, m.rawHash.value, RawOverlay);
    ReadBytesUndoesEncode(t, p.forms.normalized, m.normalized.value, m.normalizedHash.value, NormalizedOverlay);
  }

  /** A journal written by `install` reads back as what was journaled. */
  lemma ReaderUndoesWriter(t: Tools, path: string, original: Bytes, mode: Mode, forms: Forms)
    requires DigestsAreHashes(t) && t.forms(original) == Some(forms)
    ensures ReadJournal(t, path, Journal(t, path, original, mode, forms)) == Ok(Parsed(original, mode, forms))
  {
    WrittenMembers(t, path, original, mode, forms);
    ReadsTheWritten(t, path, Parsed(original, mode, forms));
  }

  /** A version 1 and a version 2 journal of the same original read back as the same values. */
  lemma LegacyJournalReadsTheSame(t: Tools, path: string, original: Bytes, mode: nat, forms: Forms)
    requires DigestsAreHashes(t) && t.forms(original) == Some(forms) && mode <= MAX_LEGACY_MODE
    ensures ReadMembers(t, path, LegacyMembers(t, path, original, mode, forms)) ==
            ReadMembers(t, path, JournalMembers(t, path, original, Permissions(mode), forms)) ==
            Ok(Parsed(original, Permissions(mode), forms))
  {
    var m := LegacyMembers(t, path, original, mode, forms);
    var p := Parsed(original, Permissions(mode), forms);
    ReadBytesUndoesEncode(t, original, m.original.value, m.originalHash.value, Original);
    assert IsHash(t.digest(forms.raw));
    ReadsTheWritten(t, path, p);
  }

  lemma OverlayFormsAreRecomputed(t: Tools, m: Members, original: Bytes)
    requires HasFields(m) && m.originalMode.value.Number? && m.originalMode.value.n >= 0
    requires ReadOverlay(t, m, original).Ok?
    ensures var p := ReadOverlay(t, m, original).value; t.forms(p.original) == Some(p.forms)
  {
  }

  /** The overlay forms of any accepted journal, of either version, are the ones recomputed from its original. */
  lemma AcceptedFormsAreRecomputed(t: Tools, path: string, m: Members)
    requires ReadMembers(t, path, m).Ok?
    ensures var p := ReadMembers(t, path, m).value; t.forms(p.original) == Some(p.forms)
  {
    assert HeaderError(path, m).None?;
    OverlayFormsAreRecomputed(t, m, ReadBytes(t, m.original.value, m.originalHash.value, Original).value);
  }

  /** The permission bits are the last twelve. */
  lemma PermissionsAreLastBits(mode: nat)
    ensures Permissions(mode) < 4096 && exists k: nat :: mode == 4096 * k + Permissions(mode)
  {
    assert mode == 4096 * (mode / 4096) + Permissions(mode);
  }

  /** The parts of an accepted version 1 journal. */
  lemma LegacyParts(t: Tools, path: string, m: Members, p: Parsed)
    requires m.version == Some(Number(1)) && ReadMembers(t, path, m) == Ok(p)
    ensures HasLegacyFields(m) && m.configPath == Some(Text(path))
    ensures m.originalMode.value.Number? && 0 <= m.originalMode.value.n <= MAX_LEGACY_MODE
    ensures p.mode == Permissions(m.originalMode.value.n) && t.forms(p.original) == Some(p.forms)
    ensures ReadBytes(t, m.original.value, m.originalHash.value, Original) == Ok(p.original)
    ensures HashMatches(t, p.forms.raw, m.legacyOverlayHash.value)
  {
    assert HeaderError(path, m).None?;
    LegacyOverlayParts(t, m, ReadBytes(t, m.original.value, m.originalHash.value, Original).value, p);
  }

  lemma LegacyOverlayParts(t: Tools, m: Members, original: Bytes, p: Parsed)
    requires HasLegacyFields(m) && IsLegacy(m) && m.originalMode.value.Number? && m.originalMode.value.n >= 0
    requires ReadOverlay(t, m, original) == Ok(p)
    ensures original == p.original && p.mode == Permissions(m.originalMode.value.n)
    ensures t.forms(original) == Some(p.forms) && HashMatches(t, p.forms.raw, m.legacyOverlayHash.value)
  {
  }

  /** An accepted version 1 journal has exactly the members that were written then, for some mode with these bits. */
  lemma ReadsOnlyTheLegacy(t: Tools, path: string, m: Members, p: Parsed) returns (mode: nat)
    requires DigestsAreHashes(t) && m.version == Some(Number(1)) && ReadMembers(t, path, m) == Ok(p)
    ensures mode <= MAX_LEGACY_MODE && p.mode == Permissions(mode) && t.forms(p.original) == Some(p.forms)
    ensures m == LegacyMembers(t, path, p.original, mode, p.forms)
  {
    LegacyParts(t, path, m, p);
    ReadBytesUndoesEncode(t, p.original, m.original.value, m.originalHash.value, Original);
    mode := m.originalMode.value.n;
  }
}
