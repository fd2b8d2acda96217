/** The overlay object itself: it works on a config directory and may die after any atomic write. */
module ShellReviewOverlay {
  import opened Wrappers
  import opened Base64
  import opened OverlayJournal
  import opened OverlayProtocol
  import OverlayTheorems

  /** The two files, and how many more atomic writes the process that works on them will live to see. */
  class ConfigDirectory {
    var config: Option<File>
    var journal: Option<Document>
    var lifetime: nat

    ghost function Contents(): Disk
      reads this
    {
      Disk(config, journal)
    }

    /** `_atomic_replace_bytes` or `unlink`: all of the change or, if the process dies, nothing. */
    method Make(w: Write) returns (alive: bool)
      modifies this
      ensures alive == (old(lifetime) > 0)
      ensures Contents() == if alive then Apply(old(Contents()), w) else old(Contents())
      ensures lifetime == if alive then old(lifetime) - 1 else 0
    {
      if lifetime == 0 {
        return false;
      }
      match w {
        case ReplaceConfig(file) => config := Some(file);
        case WriteJournal(document) => journal := Some(document);
        case ClearJournal => journal := None;
      }
      lifetime := lifetime - 1;
      return true;
    }
  }

  datatype Outcome = Done | Failed(failure: Failure) | Died

  function OutcomeOf(failure: Option<Failure>): Outcome {
    if failure.None? then Done else Failed(failure.value)
  }

  /** An operation that sets out to make `writes`, with `lifetime` writes left to live. */
  ghost predicate Performed(before: Disk, lifetime: nat, writes: seq<Write>, after: Disk, left: nat) {
    after == Perform(before, writes, lifetime) && left == if lifetime < |writes| then 0 else lifetime - |writes|
  }

  class ShellReviewOverlay {
    const env: Env
    const dir: ConfigDirectory
    var original: Option<Bytes>
    var mode: Mode
    var installed: bool

    constructor (env: Env, dir: ConfigDirectory)
      ensures this.env == env && this.dir == dir && Remembered() == FRESH
    {
      this.env, this.dir := env, dir;
      original, mode, installed := None, 0, false;
    }

    ghost function Remembered(): Memory
      reads this
    {
      Memory(installed, original, mode)
    }

    /** `_read_journal` */
    method ReadJournal() returns (parsed: Result<Parsed, Failure>)
      ensures parsed == ReadDisk(env, dir.Contents())
    {
      if dir.journal.None? {
        return Err(BadJournal(CannotRead));
      }
      var read := env.read(dir.journal.value);
      if read.Err? {
        return Err(BadJournal(read.error));
      }
      return Ok(read.value);
    }

    /** `_restore_original`: the config first, the journal only once the config is back. */
    method RestoreOriginal(p: Parsed) returns (alive: bool)
      modifies dir
      ensures alive == (old(dir.lifetime) >= 2)
      ensures Performed(old(dir.Contents()), old(dir.lifetime), RestoreWrites(p), dir.Contents(), dir.lifetime)
    {
      var file := File(p.original, p.mode);
      OverlayTheorems.PerformTwo(dir.Contents(), ReplaceConfig(file), ClearJournal, dir.lifetime);
      alive := dir.Make(ReplaceConfig(file));
      if !alive {
        return;
      }
      // The bytes and the mode just written are what is there: the check after the write cannot fail.
      assert dir.config == Some(file);
      alive := dir.Make(ClearJournal);
    }

    /** `_recover_interrupted_install` */
    method RecoverInterruptedInstall() returns (outcome: Outcome)
      modifies dir
      ensures var recovery := RecoverWrites(env, old(dir.Contents()));
        var writes := if recovery.Ok? then recovery.value else [];
        && Performed(old(dir.Contents()), old(dir.lifetime), writes, dir.Contents(), dir.lifetime)
        && outcome == if old(dir.lifetime) < |writes| then Died
                      else if recovery.Err? then Failed(recovery.error) else Done
    {
      if dir.journal.None? {
        return Done;
      }
      if dir.config.None? {
        return Failed(MissingConfig);
      }
      var journal := ReadJournal();
      if journal.Err? {
        return Failed(journal.error);
      }
      var current := dir.config.value.bytes;
      if current == journal.value.original {
        var survived := RestoreOriginal(journal.value);
        return if survived then Done else Died;
      }
      if !IsOverlay(current, journal.value) {
        return Failed(ForeignConfig);
      }
      var alive := RestoreOriginal(journal.value);
      return if alive then Done else Died;
    }

    /** `restore` */
    method Restore() returns (outcome: Outcome)
      modifies this, dir
      ensures var plan := RestorePlan(env, old(dir.Contents()), old(Remembered()));
        && Performed(old(dir.Contents()), old(dir.lifetime), plan.writes, dir.Contents(), dir.lifetime)
        && if old(dir.lifetime) < |plan.writes| then outcome == Died
           else outcome == OutcomeOf(plan.failure) && Remembered() == plan.after
    {
      if !installed {
        return Done;
      }
      if original.None? {
        return Failed(LostOriginal);
      }
      var journal := ReadJournal();
      if journal.Err? {
        return Failed(journal.error);
      }
      if dir.config.None? {
        return Failed(MissingConfig);
      }
      if !IsOverlay(dir.config.value.bytes, journal.value) {
        return Failed(ForeignConfig);
      }
      if journal.value.original != original.value {
        return Failed(OriginalMismatch);
      }
      if journal.value.mode != mode {
        return Failed(ModeMismatch);
      }
      var alive := RestoreOriginal(journal.value);
      if !alive {
        return Died;
      }
      installed := false;
      return Done;
    }

    /** The rest of `install`, once nothing is left to recover. */
    method InstallFresh() returns (outcome: Outcome)
      modifies this, dir
      ensures var plan := FreshInstallPlan(env, old(dir.Contents()), old(Remembered()));
        && Performed(old(dir.Contents()), old(dir.lifetime), plan.writes, dir.Contents(), dir.lifetime)
        && if old(dir.lifetime) < |plan.writes| then outcome == Died
           else outcome == OutcomeOf(plan.failure) && Remembered() == plan.after
    {
      if dir.config.None? {
        return Failed(MissingConfig);
      }
      var file := dir.config.value;
      var forms := env.forms(file.bytes);
      if forms.None? {
        return Failed(CannotConstruct);
      }
      ghost var before, lifetime, writes := dir.Contents(), dir.lifetime, OverlayWrites(env, file, forms.value);
      OverlayTheorems.PerformTwo(before, writes[0], writes[1], lifetime);
      OverlayTheorems.PerformTwo(before, writes[0], writes[1], 2);
      ghost var undo := RestorePlan(env, PerformAll(before, writes), Memory(true, Some(file.bytes), file.mode)).writes;
      OverlayTheorems.PerformSplit(before, writes, undo, lifetime);
      original, mode := Some(file.bytes), file.mode;
      var alive := dir.Make(WriteJournal(env.write(file, forms.value)));
      if !alive {
        return Died;
      }
      alive := dir.Make(ReplaceConfig(File(forms.value.raw, file.mode)));
      if !alive {
        return Died;
      }
      installed := true;
      if env.policyHolds(file.bytes) {
        return Done;
      }
      var restored := Restore();
      return if restored.Died? then Died else Failed(PolicyRejected);
    }

    /** `install` */
    method Install() returns (outcome: Outcome)
      modifies this, dir
      ensures var plan := InstallPlan(env, old(dir.Contents()), old(Remembered()));
        && Performed(old(dir.Contents()), old(dir.lifetime), plan.writes, dir.Contents(), dir.lifetime)
        && if old(dir.lifetime) < |plan.writes| then outcome == Died
           else outcome == OutcomeOf(plan.failure) && Remembered() == plan.after
    {
      if installed {
        return Failed(AlreadyInstalled);
      }
      ghost var before, lifetime := dir.Contents(), dir.lifetime;
      ghost var recovery := RecoverWrites(env, before);
      var recovered := RecoverInterruptedInstall();
      if recovered.Failed? {
        return recovered;
      }
      ghost var rest := FreshInstallPlan(env, PerformAll(before, recovery.value), Remembered()).writes;
      OverlayTheorems.PerformSplit(before, recovery.value, rest, lifetime);
      if recovered.Died? {
        return Died;
      }
      PerformedAll(before, recovery.value, lifetime);
      outcome := InstallFresh();
    }
  }

  lemma {:induction false} PerformedAll(d: Disk, writes: seq<Write>, lifetime: nat)
    requires lifetime >= |writes|
    ensures Perform(d, writes, lifetime) == PerformAll(d, writes)
    decreases |writes|
  {
    if writes != [] {
      PerformedAll(Apply(d, writes[0]), writes[1..], lifetime - 1);
    }
  }
}
