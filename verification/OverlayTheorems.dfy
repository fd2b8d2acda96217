/** What the shell-review overlay guarantees in every run, with a crash possible after every atomic write. */
module OverlayTheorems {
  import opened Wrappers
  import opened OverlayProtocol

  lemma {:induction false} PerformSplit(d: Disk, a: seq<Write>, b: seq<Write>, lifetime: nat)
    ensures Perform(d, a + b, lifetime) ==
            if lifetime < |a| then Perform(d, a, lifetime) else Perform(PerformAll(d, a), b, lifetime - |a|)
    decreases |a|
  {
    if a == [] {
      assert a + b == b;
    } else if lifetime > 0 {
      assert (a + b)[1..] == a[1..] + b;
      PerformSplit(Apply(d, a[0]), a[1..], b, lifetime - 1);
    }
  }

  lemma PerformTwo(d: Disk, first: Write, second: Write, lifetime: nat)
    ensures Perform(d, [first, second], lifetime) ==
            if lifetime == 0 then d else if lifetime == 1 then Apply(d, first) else Apply(Apply(d, first), second)
  {
    assert [first, second][1..] == [second];
    if lifetime >= 2 {
      assert [second][1..] == [];
      assert Perform(Apply(d, first), [second], lifetime - 1) == Apply(Apply(d, first), second);
    }
  }

  lemma ReadDiskIgnoresConfig(env: Env, d: Disk, config: Option<File>)
    ensures ReadDisk(env, d.(config := config)) == ReadDisk(env, d)
  {
  }

  /** Restoring passes through safe disks only, and ends at the baseline without a journal. */
  lemma RestoreIsSafe(env: Env, d: Disk, original: File, lifetime: nat, tampered: bool)
    requires d.journal.Some? && DiskIsSafe(env, d, Some(original), tampered)
    ensures var writes := RestoreWrites(ParsedOf(env, original));
      && DiskIsSafe(env, Perform(d, writes, lifetime), Some(original), tampered)
      && (lifetime >= |writes| ==> Perform(d, writes, lifetime) == Disk(Some(original), None))
  {
    PerformTwo(d, ReplaceConfig(original), ClearJournal, lifetime);
    ReadDiskIgnoresConfig(env, d, Some(original));
  }

  lemma RecoveryIsSafe(env: Env, d: Disk, baseline: Option<File>, lifetime: nat, tampered: bool)
    requires DiskIsSafe(env, d, baseline, tampered) && RecoverWrites(env, d).Ok?
    ensures var writes := RecoverWrites(env, d).value;
      && DiskIsSafe(env, Perform(d, writes, lifetime), baseline, tampered)
      && (lifetime >= |writes| ==> Perform(d, writes, lifetime) == Disk(baseline, None))
  {
    if d.journal.Some? {
      RestoreIsSafe(env, d, baseline.value, lifetime, tampered);
    }
  }

  /** The journal is on disk before the overlay is. */
  lemma OverlayIsSafe(env: Env, original: File, lifetime: nat, tampered: bool)
    requires ReadsBack(env) && env.forms(original.bytes).Some?
    ensures var forms := env.forms(original.bytes).value;
      var d := Perform(Disk(Some(original), None), OverlayWrites(env, original, forms), lifetime);
      && DiskIsSafe(env, d, Some(original), tampered)
      && (lifetime > 0 ==> d.journal.Some?)
      && (lifetime > 1 ==> d.config == Some(File(forms.raw, original.mode)))
  {
    var forms := env.forms(original.bytes).value;
    var d := Disk(Some(original), None);
    var writes := OverlayWrites(env, original, forms);
    PerformTwo(d, writes[0], writes[1], lifetime);
  }

  /** A freshly installed overlay can be restored at once. */
  lemma UndoSucceeds(env: Env, d: Disk, original: File, tampered: bool)
    requires env.forms(original.bytes).Some? && d.journal.Some? && DiskIsSafe(env, d, Some(original), tampered)
    requires d.config.Some? && IsOverlay(d.config.value.bytes, ParsedOf(env, original))
    ensures RestorePlan(env, d, Memory(true, Some(original.bytes), original.mode)) ==
            Plan(RestoreWrites(ParsedOf(env, original)), None, Memory(false, Some(original.bytes), original.mode))
  {
  }

  lemma FreshInstallIsSafe(env: Env, baseline: Option<File>, m: Memory, lifetime: nat, tampered: bool)
    requires ReadsBack(env) && !m.installed
    ensures var d := Disk(baseline, None);
      var plan := FreshInstallPlan(env, d, m);
      var after := Perform(d, plan.writes, lifetime);
      && DiskIsSafe(env, after, baseline, tampered)
      && (lifetime >= |plan.writes| ==> MemoryIsSafe(env, after, plan.after, baseline, tampered))
  {
    var d := Disk(baseline, None);
    if baseline.Some? && env.forms(baseline.value.bytes).Some? {
      var original := baseline.value;
      var writes := OverlayWrites(env, original, env.forms(original.bytes).value);
      OverlayIsSafe(env, original, lifetime, tampered);
      OverlayIsSafe(env, original, |writes|, tampered);
      if !env.policyHolds(original.bytes) {
        var undo := RestoreWrites(ParsedOf(env, original));
        UndoSucceeds(env, PerformAll(d, writes), original, tampered);
        PerformSplit(d, writes, undo, lifetime);
        if lifetime >= |writes| {
          RestoreIsSafe(env, PerformAll(d, writes), original, lifetime - |writes|, tampered);
        }
      }
    }
  }

  lemma InstallIsSafe(env: Env, d: Disk, m: Memory, baseline: Option<File>, lifetime: nat, tampered: bool)
    requires ReadsBack(env) && DiskIsSafe(env, d, baseline, tampered) && MemoryIsSafe(env, d, m, baseline, tampered)
    ensures var plan := InstallPlan(env, d, m);
      var after := Perform(d, plan.writes, lifetime);
      && DiskIsSafe(env, after, baseline, tampered)
      && (lifetime >= |plan.writes| ==> MemoryIsSafe(env, after, plan.after, baseline, tampered))
  {
    hide DiskIsSafe, MemoryIsSafe, FreshInstallPlan;
    if !m.installed && RecoverWrites(env, d).Ok? {
      var recovery := RecoverWrites(env, d).value;
      RecoveryIsSafe(env, d, baseline, lifetime, tampered);
      RecoveryIsSafe(env, d, baseline, |recovery|, tampered);
      PerformSplit(d, recovery, FreshInstallPlan(env, Disk(baseline, None), m).writes, lifetime);
      if lifetime >= |recovery| {
        FreshInstallIsSafe(env, baseline, m, lifetime - |recovery|, tampered);
      }
    }
  }

  lemma RestorePlanIsSafe(env: Env, d: Disk, m: Memory, baseline: Option<File>, lifetime: nat, tampered: bool)
    requires DiskIsSafe(env, d, baseline, tampered) && MemoryIsSafe(env, d, m, baseline, tampered)
    ensures var plan := RestorePlan(env, d, m);
      var after := Perform(d, plan.writes, lifetime);
      && DiskIsSafe(env, after, baseline, tampered)
      && (lifetime >= |plan.writes| ==> MemoryIsSafe(env, after, plan.after, baseline, tampered))
  {
    if RestorePlan(env, d, m).writes != [] {
      RestoreIsSafe(env, d, baseline.value, lifetime, tampered);
    }
  }

  lemma StepIsSafe(env: Env, s: System, a: Action)
    requires ReadsBack(env) && Safe(env, s)
    ensures Safe(env, Step(env, s, a))
  {
    match a
    case Start =>
    case Install(lifetime) =>
      if s.process.Some? { InstallIsSafe(env, s.disk, s.process.value, s.baseline, lifetime, s.tampered); }
    case Restore(lifetime) =>
      if s.process.Some? { RestorePlanIsSafe(env, s.disk, s.process.value, s.baseline, lifetime, s.tampered); }
    case Crash =>
    case Normalize(mode) => ReadDiskIgnoresConfig(env, s.disk, Normalized(env, s.disk, mode).config);
    case Edit(file) => ReadDiskIgnoresConfig(env, s.disk, file);
  }

  lemma {:induction false} EveryRunIsSafe(env: Env, config: Option<File>, actions: seq<Action>)
    requires ReadsBack(env)
    ensures Safe(env, Run(env, config, actions))
  {
    if actions != [] {
      EveryRunIsSafe(env, config, actions[..|actions| - 1]);
      StepIsSafe(env, Run(env, config, actions[..|actions| - 1]), actions[|actions| - 1]);
    }
  }

  /**
  In every run, at every crash point: a config that is not the owner's own has a journal beside it
  that holds the owner's bytes and mode.
  */
  lemma ChangedConfigIsJournaled(env: Env, config: Option<File>, actions: seq<Action>)
    requires ReadsBack(env)
    ensures var s := Run(env, config, actions);
      s.disk.config != s.baseline ==>
        && s.baseline.Some?
        && ReadDisk(env, s.disk).Ok?
        && ReadDisk(env, s.disk).value.original == s.baseline.value.bytes
        && ReadDisk(env, s.disk).value.mode == s.baseline.value.mode
  {
    EveryRunIsSafe(env, config, actions);
  }

  /**
  From every reachable disk: recovery succeeds exactly when there is nothing to recover or the config
  is recognized; it ends with exactly the owner's config and no journal, and running it again writes
  nothing.  When it refuses, it has written nothing.
  */
  lemma RecoveryEndsAtBaseline(env: Env, config: Option<File>, actions: seq<Action>)
    requires ReadsBack(env)
    ensures var s := Run(env, config, actions);
      var recovery := RecoverWrites(env, s.disk);
      && (recovery.Ok? <==> s.disk.journal.None? || Recognized(env, s.disk, s.baseline))
      && (recovery.Ok? ==>
            && PerformAll(s.disk, recovery.value) == Disk(s.baseline, None)
            && RecoverWrites(env, PerformAll(s.disk, recovery.value)) == Ok([]))
  {
    EveryRunIsSafe(env, config, actions);
    var s := Run(env, config, actions);
    if RecoverWrites(env, s.disk).Ok? {
      RecoveryIsSafe(env, s.disk, s.baseline, |RecoverWrites(env, s.disk).value|, s.tampered);
    }
  }

  // --- runs in which nobody edits an installed overlay ---

  /** While nobody edits an installed overlay, recovery always succeeds. */
  lemma UntamperedRecoverySucceeds(env: Env, config: Option<File>, actions: seq<Action>)
    requires ReadsBack(env) && !Run(env, config, actions).tampered
    ensures RecoverWrites(env, Run(env, config, actions).disk).Ok?
  {
    EveryRunIsSafe(env, config, actions);
  }

  /** Nor can an installed process fail to restore: it puts back bytes and mode and clears the journal. */
  lemma UntamperedRestoreSucceeds(env: Env, config: Option<File>, actions: seq<Action>)
    requires ReadsBack(env) && !Run(env, config, actions).tampered
    requires Run(env, config, actions).process.Some? && Run(env, config, actions).process.value.installed
    ensures var s := Run(env, config, actions);
      var plan := RestorePlan(env, s.disk, s.process.value);
      plan.failure.None? && !plan.after.installed && PerformAll(s.disk, plan.writes) == Disk(s.baseline, None)
  {
    EveryRunIsSafe(env, config, actions);
    var s := Run(env, config, actions);
    RestoreIsSafe(env, s.disk, s.baseline.value, |RestoreWrites(ParsedOf(env, s.baseline.value))|, s.tampered);
  }

  predicate NoEdits(actions: seq<Action>) {
    forall a | a in actions :: !a.Edit?
  }

  lemma {:induction false} NoEditsKeepBaseline(env: Env, config: Option<File>, actions: seq<Action>)
    requires NoEdits(actions)
    ensures Run(env, config, actions).baseline == config && !Run(env, config, actions).tampered
  {
    if actions != [] {
      assert actions[|actions| - 1] in actions;
      NoEditsKeepBaseline(env, config, actions[..|actions| - 1]);
    }
  }

  /** However often the overlay is installed, normalized, restored and interrupted, recovery gets the first disk back. */
  lemma NothingIsLost(env: Env, config: Option<File>, actions: seq<Action>)
    requires ReadsBack(env) && NoEdits(actions)
    ensures var d := Run(env, config, actions).disk;
      && RecoverWrites(env, d).Ok?
      && PerformAll(d, RecoverWrites(env, d).value) == Disk(config, None)
  {
    NoEditsKeepBaseline(env, config, actions);
    UntamperedRecoverySucceeds(env, config, actions);
    RecoveryEndsAtBaseline(env, config, actions);
  }

  /** An installation that succeeds has put the raw overlay in place, with the owner's mode and a journal. */
  lemma InstallationTakesEffect(env: Env, config: Option<File>, actions: seq<Action>)
    requires ReadsBack(env) && Run(env, config, actions).process.Some?
    ensures var s := Run(env, config, actions);
      var plan := InstallPlan(env, s.disk, s.process.value);
      plan.failure.None? ==>
        var after := PerformAll(s.disk, plan.writes);
        && plan.after.installed && after.journal.Some?
        && s.baseline.Some? && env.forms(s.baseline.value.bytes).Some? && env.policyHolds(s.baseline.value.bytes)
        && after.config == Some(File(env.forms(s.baseline.value.bytes).value.raw, s.baseline.value.mode))
  {
    EveryRunIsSafe(env, config, actions);
    var s := Run(env, config, actions);
    var plan := InstallPlan(env, s.disk, s.process.value);
    if plan.failure.None? {
      var recovery := RecoverWrites(env, s.disk).value;
      RecoveryIsSafe(env, s.disk, s.baseline, |recovery|, s.tampered);
      var rest := FreshInstallPlan(env, Disk(s.baseline, None), s.process.value).writes;
      PerformSplit(s.disk, recovery, rest, |recovery| + |rest|);
      OverlayIsSafe(env, s.baseline.value, |rest|, s.tampered);
    }
  }

  // --- how every installation and every restoration ends ---

  /** What an installation comes to when it survives all its writes: how it ends, the disk, and the memory. */
  datatype Ending = Ending(failure: Option<Failure>, disk: Disk, after: Memory)

  function EndOf(d: Disk, plan: Plan): Ending {
    Ending(plan.failure, PerformAll(d, plan.writes), plan.after)
  }

  /** A journal whose config is gone, or is neither the owner's nor one of its forms, stops an installation. */
  function Obstacle(env: Env, s: System): Option<Failure> {
    if s.disk.journal.None? then None
    else if s.disk.config.None? then Some(MissingConfig)
    else if !Recognized(env, s.disk, s.baseline) then Some(ForeignConfig)
    else None
  }

  /** An installation over the owner's config, without anything to recover. */
  function FreshEnding(env: Env, baseline: Option<File>, m: Memory): Ending {
    if baseline.None? then Ending(Some(MissingConfig), Disk(None, None), m)
    else
      var file := baseline.value;
      var forms := env.forms(file.bytes);
      if forms.None? then Ending(Some(CannotConstruct), Disk(baseline, None), m)
      else if !env.policyHolds(file.bytes) then
        Ending(Some(PolicyRejected), Disk(baseline, None), Memory(false, Some(file.bytes), file.mode))
      else
        Ending(None, Disk(Some(File(forms.value.raw, file.mode)), Some(env.write(file, forms.value))),
               Memory(true, Some(file.bytes), file.mode))
  }

  lemma FreshInstallEnds(env: Env, baseline: Option<File>, m: Memory)
    requires ReadsBack(env)
    ensures EndOf(Disk(baseline, None), FreshInstallPlan(env, Disk(baseline, None), m)) == FreshEnding(env, baseline, m)
  {
    var d := Disk(baseline, None);
    if baseline.Some? && env.forms(baseline.value.bytes).Some? {
      var original := baseline.value;
      var writes := OverlayWrites(env, original, env.forms(original.bytes).value);
      PerformTwo(d, writes[0], writes[1], 2);
      OverlayIsSafe(env, original, |writes|, false);
      if !env.policyHolds(original.bytes) {
        var undo := RestoreWrites(ParsedOf(env, original));
        UndoSucceeds(env, PerformAll(d, writes), original, false);
        PerformSplit(d, writes, undo, |writes| + |undo|);
        RestoreIsSafe(env, PerformAll(d, writes), original, |undo|, false);
      }
    }
  }

  lemma RecoveryFails(env: Env, s: System)
    requires Safe(env, s)
    ensures RecoverWrites(env, s.disk).Err? <==> Obstacle(env, s).Some?
    ensures RecoverWrites(env, s.disk).Err? ==> RecoverWrites(env, s.disk).error == Obstacle(env, s).value
  {
  }

  /**
  How an installation ends from any reachable state.  It succeeds if and only if the process has nothing
  installed, the config is there and recognized, it has overlay forms, and the policy holds; a rejected
  policy leaves the owner's config, no journal, and nothing installed; an obstacle changes nothing.
  */
  lemma InstallationEnds(env: Env, config: Option<File>, actions: seq<Action>)
    requires ReadsBack(env) && Run(env, config, actions).process.Some?
    ensures var s := Run(env, config, actions);
      var m, obstacle := s.process.value, Obstacle(env, s);
      EndOf(s.disk, InstallPlan(env, s.disk, m)) ==
      if m.installed then Ending(Some(AlreadyInstalled), s.disk, m)
      else if obstacle.Some? then Ending(obstacle, s.disk, m)
      else FreshEnding(env, s.baseline, m)
  {
    EveryRunIsSafe(env, config, actions);
    var s := Run(env, config, actions);
    RecoveryFails(env, s);
    if !s.process.value.installed && RecoverWrites(env, s.disk).Ok? {
      var recovery := RecoverWrites(env, s.disk).value;
      RecoveryIsSafe(env, s.disk, s.baseline, |recovery|, s.tampered);
      var rest := FreshInstallPlan(env, Disk(s.baseline, None), s.process.value).writes;
      PerformSplit(s.disk, recovery, rest, |recovery| + |rest|);
      FreshInstallEnds(env, s.baseline, s.process.value);
    }
  }

  lemma InstallationSucceedsExactly(env: Env, config: Option<File>, actions: seq<Action>)
    requires ReadsBack(env) && Run(env, config, actions).process.Some?
    ensures var s := Run(env, config, actions);
      InstallPlan(env, s.disk, s.process.value).failure.None? <==>
        && !s.process.value.installed
        && s.disk.config.Some? && (s.disk.journal.None? || Recognized(env, s.disk, s.baseline))
        && s.baseline.Some? && env.forms(s.baseline.value.bytes).Some? && env.policyHolds(s.baseline.value.bytes)
  {
    InstallationEnds(env, config, actions);
    EveryRunIsSafe(env, config, actions);
  }

  /** A rejected policy is undone. */
  lemma RejectedInstallationIsUndone(env: Env, config: Option<File>, actions: seq<Action>)
    requires ReadsBack(env) && Run(env, config, actions).process.Some?
    requires var s := Run(env, config, actions);
      && !s.process.value.installed && RecoverWrites(env, s.disk).Ok? && s.baseline.Some?
      && env.forms(s.baseline.value.bytes).Some? && !env.policyHolds(s.baseline.value.bytes)
    ensures var s := Run(env, config, actions);
      var plan := InstallPlan(env, s.disk, s.process.value);
      && PerformAll(s.disk, plan.writes) == Disk(s.baseline, None)
      && plan.failure == Some(PolicyRejected) && !plan.after.installed
  {
    InstallationEnds(env, config, actions);
    EveryRunIsSafe(env, config, actions);
    RecoveryFails(env, Run(env, config, actions));
  }

  /**
  How a restoration ends from any reachable state: it puts the owner's config back exactly when the process
  has an overlay installed and the config is one of its forms, and otherwise changes nothing.
  */
  lemma RestorationEnds(env: Env, config: Option<File>, actions: seq<Action>)
    requires ReadsBack(env) && Run(env, config, actions).process.Some?
    ensures var s := Run(env, config, actions);
      var m := s.process.value;
      EndOf(s.disk, RestorePlan(env, s.disk, m)) ==
      if !m.installed then Ending(None, s.disk, m)
      else if s.disk.config.None? then Ending(Some(MissingConfig), s.disk, m)
      else if !Overlaid(env, s.disk, s.baseline) then Ending(Some(ForeignConfig), s.disk, m)
      else Ending(None, Disk(s.baseline, None), m.(installed := false))
  {
    EveryRunIsSafe(env, config, actions);
    var s := Run(env, config, actions);
    if s.process.value.installed && Overlaid(env, s.disk, s.baseline) {
      RestoreIsSafe(env, s.disk, s.baseline.value, |RestoreWrites(ParsedOf(env, s.baseline.value))|, s.tampered);
    }
  }

  /**
  Whatever is on the disk and whatever the object remembers: it restores exactly when it has an overlay
  installed, the journal can be read and has the original and the mode that it remembers, and the config is a
  form of that overlay.  It writes nothing else, and failing leaves what it remembers.
  */
  lemma RestoringIsExact(env: Env, d: Disk, m: Memory)
    ensures var plan, parsed := RestorePlan(env, d, m), ReadDisk(env, d);
      var restores := m.installed && parsed.Ok? && d.config.Some?
        && (d.config.value.bytes == parsed.value.forms.raw || d.config.value.bytes == parsed.value.forms.normalized)
        && m.original == Some(parsed.value.original) && m.mode == parsed.value.mode;
      && (restores ==>
            && plan.writes == [ReplaceConfig(File(parsed.value.original, parsed.value.mode)), ClearJournal]
            && plan.failure.None? && plan.after == m.(installed := false))
      && (!restores ==> plan.writes == [] && plan.after == m && (plan.failure.None? <==> !m.installed))
  {
  }
}
