/**
The write-ahead protocol of the shell-review overlay on values: which atomic writes an operation
makes from which disk, and the runs of such operations with crashes and outside changes between.
*/
module OverlayProtocol {
  import opened Wrappers
  import opened Base64
  import opened OverlayJournal

  datatype File = File(bytes: Bytes, mode: Mode)

  /** The config file and the journal beside it. */
  datatype Disk = Disk(config: Option<File>, journal: Option<Document>)

  /** One atomic change of the disk. */
  datatype Write = ReplaceConfig(file: File) | WriteJournal(document: Document) | ClearJournal

  function Apply(d: Disk, w: Write): Disk {
    match w
    case ReplaceConfig(file) => d.(config := Some(file))
    case WriteJournal(document) => d.(journal := Some(document))
    case ClearJournal => d.(journal := None)
  }

  /** The disk after a process that survives at most `lifetime` writes has set out to make `writes`. */
  function Perform(d: Disk, writes: seq<Write>, lifetime: nat): Disk
    decreases |writes|
  {
    if writes == [] || lifetime == 0 then d else Perform(Apply(d, writes[0]), writes[1..], lifetime - 1)
  }

  function PerformAll(d: Disk, writes: seq<Write>): Disk {
    Perform(d, writes, |writes|)
  }

  /**
  What an overlay works with: the journal's reader and writer, the renderer of the overlay forms, and
  the policy check that ends an installation.
  */
  datatype Env = Env(
    read: Document -> Result<Parsed, Error>,
    write: (File, Forms) -> Document,
    forms: Bytes -> Option<Forms>,
    policyHolds: Bytes -> bool)

  /** The reader undoes the writer. */
  ghost predicate ReadsBack(env: Env) {
    forall original: File, forms: Forms | env.forms(original.bytes) == Some(forms) ::
      env.read(env.write(original, forms)) == Ok(Parsed(original.bytes, original.mode, forms))
  }

  /** The overlay of the config at `path`. */
  function Overlay(t: Tools, path: string, policyHolds: Bytes -> bool): Env {
    Env(document => ReadJournal(t, path, document),
        (original: File, forms) => Journal(t, path, original.bytes, original.mode, forms),
        t.forms, policyHolds)
  }

  lemma OverlayReadsBack(t: Tools, path: string, policyHolds: Bytes -> bool)
    requires DigestsAreHashes(t)
    ensures ReadsBack(Overlay(t, path, policyHolds))
  {
    var env := Overlay(t, path, policyHolds);
    forall original: File, forms: Forms | env.forms(original.bytes) == Some(forms)
      ensures env.read(env.write(original, forms)) == Ok(Parsed(original.bytes, original.mode, forms))
    {
      ReaderUndoesWriter(t, path, original.bytes, original.mode, forms);
    }
  }

  /** The fields of an overlay object. */
  datatype Memory = Memory(installed: bool, original: Option<Bytes>, mode: Mode)

  const FRESH := Memory(false, None, 0)

  datatype Failure =
    | AlreadyInstalled | MissingConfig | BadJournal(e: Error) | ForeignConfig
    | CannotConstruct | PolicyRejected | LostOriginal | OriginalMismatch | ModeMismatch

  /** The writes of one operation, how it ends when it survives them, and what the object then holds. */
  datatype Plan = Plan(writes: seq<Write>, failure: Option<Failure>, after: Memory)

  function ReadDisk(env: Env, d: Disk): Result<Parsed, Failure> {
    if d.journal.None? then Err(BadJournal(CannotRead))
    else
      var parsed := env.read(d.journal.value);
      if parsed.Err? then Err(BadJournal(parsed.error)) else Ok(parsed.value)
  }

  predicate IsOverlay(bytes: Bytes, p: Parsed) {
    bytes == p.forms.raw || bytes == p.forms.normalized
  }

  /** `_restore_original` */
  function RestoreWrites(p: Parsed): seq<Write> {
    [ReplaceConfig(File(p.original, p.mode)), ClearJournal]
  }

  /** `_recover_interrupted_install` */
  function RecoverWrites(env: Env, d: Disk): Result<seq<Write>, Failure> {
    if d.journal.None? then Ok([])
    else if d.config.None? then Err(MissingConfig)
    else
      var parsed := ReadDisk(env, d);
      if parsed.Err? then Err(parsed.error)
      else if d.config.value.bytes == parsed.value.original || IsOverlay(d.config.value.bytes, parsed.value) then
        Ok(RestoreWrites(parsed.value))
      else Err(ForeignConfig)
  }

  /** `restore` */
  function RestorePlan(env: Env, d: Disk, m: Memory): Plan {
    if !m.installed then Plan([], None, m)
    else if m.original.None? then Plan([], Some(LostOriginal), m)
    else
      var parsed := ReadDisk(env, d);
      if parsed.Err? then Plan([], Some(parsed.error), m)
      else if d.config.None? then Plan([], Some(MissingConfig), m)
      else if !IsOverlay(d.config.value.bytes, parsed.value) then Plan([], Some(ForeignConfig), m)
      else if parsed.value.original != m.original.value then Plan([], Some(OriginalMismatch), m)
      else if parsed.value.mode != m.mode then Plan([], Some(ModeMismatch), m)
      else Plan(RestoreWrites(parsed.value), None, m.(installed := false))
  }

  /** Journal first, then the overlay. */
  function OverlayWrites(env: Env, original: File, forms: Forms): seq<Write> {
    [WriteJournal(env.write(original, forms)),
     ReplaceConfig(File(forms.raw, original.mode))]
  }

  /** The rest of `install`, once nothing is left to recover. */
  function FreshInstallPlan(env: Env, d: Disk, m: Memory): Plan {
    if d.config.None? then Plan([], Some(MissingConfig), m)
    else
      var original := d.config.value;
      var forms := env.forms(original.bytes);
      if forms.None? then Plan([], Some(CannotConstruct), m)
      else
        var writes := OverlayWrites(env, original, forms.value);
        var installed := Memory(true, Some(original.bytes), original.mode);
        if env.policyHolds(original.bytes) then Plan(writes, None, installed)
        else
          var undo := RestorePlan(env, PerformAll(d, writes), installed);
          Plan(writes + undo.writes, Some(PolicyRejected), undo.after)
  }

  /** `install` */
  function InstallPlan(env: Env, d: Disk, m: Memory): Plan {
    if m.installed then Plan([], Some(AlreadyInstalled), m)
    else
      var recovery := RecoverWrites(env, d);
      if recovery.Err? then Plan([], Some(recovery.error), m)
      else
        var rest := FreshInstallPlan(env, PerformAll(d, recovery.value), m);
        rest.(writes := recovery.value + rest.writes)
  }

  // --- runs ---

  /**
  What can happen to the config directory, one at a time: a process starts, installs or restores
  (surviving `lifetime` atomic writes at most), or dies; the running program rewrites an installed
  overlay to its normalized form; somebody else changes, creates or deletes the config file.
  */
  datatype Action =
    | Start
    | Install(lifetime: nat)
    | Restore(lifetime: nat)
    | Crash
    | Normalize(mode: Mode)
    | Edit(file: Option<File>)

  /**
  Two things are remembered beside the state itself: `baseline`, the config as its owner left it, and
  `tampered`, whether anybody has edited the config while a journal was there.
  */
  datatype System = System(disk: Disk, process: Option<Memory>, baseline: Option<File>, tampered: bool)

  function Execute(s: System, plan: Plan, lifetime: nat): System {
    s.(disk := Perform(s.disk, plan.writes, lifetime),
       process := if lifetime < |plan.writes| then None else Some(plan.after))
  }

  function Normalized(env: Env, d: Disk, mode: Mode): Disk {
    var parsed := ReadDisk(env, d);
    if parsed.Ok? && d.config.Some? && IsOverlay(d.config.value.bytes, parsed.value) then
      d.(config := Some(File(parsed.value.forms.normalized, mode)))
    else d
  }

  function Step(env: Env, s: System, a: Action): System {
    match a
    case Start => s.(process := Some(FRESH))
    case Install(lifetime) =>
      if s.process.None? then s else Execute(s, InstallPlan(env, s.disk, s.process.value), lifetime)
    case Restore(lifetime) =>
      if s.process.None? then s else Execute(s, RestorePlan(env, s.disk, s.process.value), lifetime)
    case Crash => s.(process := None)
    case Normalize(mode) => s.(disk := Normalized(env, s.disk, mode))
    case Edit(file) =>
      var d := s.disk.(config := file);
      if s.disk.journal.None? then s.(disk := d, baseline := file) else s.(disk := d, tampered := true)
  }

  function Run(env: Env, config: Option<File>, actions: seq<Action>): System {
    if actions == [] then System(Disk(config, None), None, config, false)
    else Step(env, Run(env, config, actions[..|actions| - 1]), actions[|actions| - 1])
  }

  // --- what every run keeps ---

  /** What a journal of `original` parses to. */
  function ParsedOf(env: Env, original: File): Parsed
    requires env.forms(original.bytes).Some?
  {
    Parsed(original.bytes, original.mode, env.forms(original.bytes).value)
  }

  /** The config is one of the overlay forms of the baseline. */
  predicate Overlaid(env: Env, d: Disk, baseline: Option<File>) {
    && d.config.Some? && baseline.Some? && env.forms(baseline.value.bytes).Some?
    && IsOverlay(d.config.value.bytes, ParsedOf(env, baseline.value))
  }

  /** The config has the bytes of the baseline, or is one of its overlay forms. */
  predicate Recognized(env: Env, d: Disk, baseline: Option<File>) {
    || (d.config.Some? && baseline.Some? && d.config.value.bytes == baseline.value.bytes)
    || Overlaid(env, d, baseline)
  }

  /** The journal, if there is one, gives back the baseline; without one the config is the baseline. */
  ghost predicate DiskIsSafe(env: Env, d: Disk, baseline: Option<File>, tampered: bool) {
    if d.journal.None? then d.config == baseline
    else
      && baseline.Some?
      && env.forms(baseline.value.bytes).Some?
      && ReadDisk(env, d) == Ok(ParsedOf(env, baseline.value))
      && (!tampered ==> Recognized(env, d, baseline))
  }

  /** An installed process remembers the baseline, and the journal is still there. */
  ghost predicate MemoryIsSafe(env: Env, d: Disk, m: Memory, baseline: Option<File>, tampered: bool) {
    m.installed ==>
      && d.journal.Some? && baseline.Some?
      && m.original == Some(baseline.value.bytes) && m.mode == baseline.value.mode
      && (!tampered ==> Overlaid(env, d, baseline))
  }

  ghost predicate Safe(env: Env, s: System) {
    && DiskIsSafe(env, s.disk, s.baseline, s.tampered)
    && (s.process.Some? ==> MemoryIsSafe(env, s.disk, s.process.value, s.baseline, s.tampered))
  }
}
