/** What a rollback leaves behind when it is not stopped: each entry on its own, the
    contents after a whole run, and running it again. */
module RollbackRerun {
  import opened Wrappers
  import opened RollbackDisk
  import opened Rollback
  import opened RollbackSafety

  // ------------------------------------------------------------------
  // One entry
  // ------------------------------------------------------------------

  ghost predicate OthersKept(d: Disk, d1: Disk, target: Path, temp: Path) {
    forall p :: p != target && p != temp ==> SameAt(d, d1, p)
  }

  // A target that was dealt with holds what was expected or a newest backup.
  ghost predicate IsSettled(w: World, d0: Disk, d: Disk, target: Path, expected: string) {
    && target in d.files
    && (w.hash(d.files[target].bytes) == expected || IsBackupOf(w, d0, target, d.files[target].bytes))
  }

  ghost predicate AllSameAt(d: Disk, steps: seq<Disk>, p: Path) {
    forall i :: 0 <= i < |steps| ==> SameAt(d, steps[i], p)
  }

  lemma ReplaceTouches(d: Disk, target: Path, bytes: Bytes, c: Choice)
    requires target != []
    ensures var a := ReplaceByRename(d, target, bytes, c);
      && OthersKept(d, Last(d, a.steps), target, TempPath(target, c.tag))
      && (a.result.Failure? ==> AllSameAt(d, a.steps, target) && SameAt(d, Last(d, a.steps), target))
      && (a.result.Success? ==> a.result.value.Restored? && target in Last(d, a.steps).files
                                && Last(d, a.steps).files[target].bytes == bytes && Last(d, a.steps).files[target].synced)
  {
    TempNameDiffers(target, c.tag);
  }

  lemma TempNameDiffers(target: Path, tag: string)
    requires target != []
    ensures TempPath(target, tag) != target
  {
    assert |Name(TempPath(target, tag))| > |Name(target)|;
  }

  lemma LoadTouchesNoFile(w: World, d: Disk, backup: Path, c: Choice)
    requires backup != []
    ensures var a := Load(w, d, backup, c);
      forall i :: 0 <= i < |a.steps| ==> a.steps[i].files == d.files
    ensures Last(d, Load(w, d, backup, c).steps).files == d.files
  {
  }

  // An attempt that finds and loads a backup, taken apart.
  lemma RestoreWithBackup(w: World, d0: Disk, d: Disk, s: Scope, target: Path, expected: string, c: Choice)
    returns (loaded: Attempt<Bytes>, middle: Disk)
    requires Inv(w, d0, d, s) && ScopeIsClear(w, d0, s)
    requires target != [] ==> IsListing(d0, BackupsDir(target), c.order)
    requires var found := FindBackup(w, d, target, expected, c); found.Success? && found.value.Backup?
    ensures target != []
    ensures loaded == Load(w, d, FindBackup(w, d, target, expected, c).value.path, c) && middle == Last(d, loaded.steps)
    ensures middle.files == d.files && forall i :: 0 <= i < |loaded.steps| ==> loaded.steps[i].files == d.files
    ensures loaded.result.Success? ==> IsBackupOf(w, d0, target, loaded.result.value)
    ensures loaded.result.Success? ==>
              var last := ReplaceByRename(middle, target, loaded.result.value, c);
              && Restore(w, d, target, expected, c) == Attempt(last.result, loaded.steps + last.steps)
              && Last(d, loaded.steps + last.steps) == Last(middle, last.steps)
    ensures loaded.result.Failure? ==>
              Restore(w, d, target, expected, c) == Attempt(Failure(loaded.result.error), loaded.steps)
  {
    var backup := FindBackup(w, d, target, expected, c).value.path;
    FoundIsNewest(w, d0, d, s, target, expected, c);
    loaded := Load(w, d, backup, c);
    middle := Last(d, loaded.steps);
    LoadTouchesNoFile(w, d, backup, c);
    LoadKeepsInv(w, d0, d, s, backup, c);
    if loaded.result.Success? {
      LoadedIsContent(w, d0, d, s, backup, c);
      Continues(d, [], loaded.steps, ReplaceByRename(middle, target, loaded.result.value, c).steps);
    }
  }

  /** An entry that fails leaves its target alone at every step. */
  lemma FailedEntryKeepsTarget(w: World, d0: Disk, d: Disk, s: Scope, target: Path, expected: string, c: Choice)
    requires Inv(w, d0, d, s) && ScopeIsClear(w, d0, s)
    requires target != [] ==> IsListing(d0, BackupsDir(target), c.order)
    requires Restore(w, d, target, expected, c).result.Failure?
    ensures AllSameAt(d, Restore(w, d, target, expected, c).steps, target)
  {
    var found := FindBackup(w, d, target, expected, c);
    if found.Success? && found.value.Backup? {
      var loaded, middle := RestoreWithBackup(w, d0, d, s, target, expected, c);
      if loaded.result.Success? {
        ReplaceTouches(middle, target, loaded.result.value, c);
      }
    }
  }

  /** An entry that is kept is at the expected hash and changes nothing; one that is
      restored ends with the synced bytes of a newest backup. */
  lemma SuccessfulEntry(w: World, d0: Disk, d: Disk, s: Scope, target: Path, expected: string, c: Choice)
    requires Inv(w, d0, d, s) && ScopeIsClear(w, d0, s)
    requires target != [] ==> IsListing(d0, BackupsDir(target), c.order)
    ensures var a := Restore(w, d, target, expected, c);
      && (a.result == Success(KeptCurrent) ==>
            a.steps == [] && target in d.files && w.hash(d.files[target].bytes) == expected)
      && (a.result == Success(Restored) ==> RestoredAt(w, d0, Last(d, a.steps), target))
      && (a.result.Success? ==> IsSettled(w, d0, Last(d, a.steps), target, expected))
  {
    var found := FindBackup(w, d, target, expected, c);
    if found.Success? && found.value.Backup? {
      var loaded, middle := RestoreWithBackup(w, d0, d, s, target, expected, c);
      if loaded.result.Success? {
        ReplaceTouches(middle, target, loaded.result.value, c);
      }
    }
  }

  lemma SameFilesSoSame(d: Disk, middle: Disk, d1: Disk, target: Path, temp: Path)
    requires middle.files == d.files && OthersKept(middle, d1, target, temp)
    ensures OthersKept(d, d1, target, temp)
    ensures SameAt(middle, d1, target) ==> SameAt(d, d1, target)
  {
    forall p | p != target && p != temp ensures SameAt(d, d1, p) {
      assert SameAt(middle, d1, p);
    }
  }

  // An entry changes no file but its target and its temporary one.
  ghost predicate Touches(d: Disk, a: Attempt<Outcome>, target: Path, tag: string) {
    && (target == [] ==> a.steps == [])
    && (target != [] ==> OthersKept(d, Last(d, a.steps), target, TempPath(target, tag)))
    && (a.result != Success(Restored) ==> SameAt(d, Last(d, a.steps), target))
  }

  lemma NoStepsTouchNothing(d: Disk, a: Attempt<Outcome>, target: Path, tag: string)
    requires a.steps == []
    ensures Touches(d, a, target, tag)
  {
  }

  lemma EntryTouches(w: World, d0: Disk, d: Disk, s: Scope, target: Path, expected: string, c: Choice)
    requires Inv(w, d0, d, s) && ScopeIsClear(w, d0, s)
    requires target != [] ==> IsListing(d0, BackupsDir(target), c.order)
    ensures Touches(d, Restore(w, d, target, expected, c), target, c.tag)
  {
    var found := FindBackup(w, d, target, expected, c);
    if found.Success? && found.value.Backup? {
      var loaded, middle := RestoreWithBackup(w, d0, d, s, target, expected, c);
      var temp := TempPath(target, c.tag);
      if loaded.result.Success? {
        ReplaceTouches(middle, target, loaded.result.value, c);
        var last := ReplaceByRename(middle, target, loaded.result.value, c);
        SameFilesSoSame(d, middle, Last(middle, last.steps), target, temp);
      } else {
        assert OthersKept(middle, middle, target, temp) && SameAt(middle, middle, target);
        SameFilesSoSame(d, middle, middle, target, temp);
      }
    } else {
      NoStepsTouchNothing(d, Restore(w, d, target, expected, c), target, c.tag);
    }
  }

  // ------------------------------------------------------------------
  // After the whole run
  // ------------------------------------------------------------------

  // Every later entry leaves it so.
  lemma EntryKeepsSettled(w: World, d0: Disk, d: Disk, s: Scope, t: Path, wanted: string,
                          target: Path, expected: string, c: Choice)
    requires Inv(w, d0, d, s) && ScopeIsClear(w, d0, s) && t in s.targets && IsSettled(w, d0, d, t, wanted)
    requires target != [] ==> TempPath(target, c.tag) in s.temps && IsListing(d0, BackupsDir(target), c.order)
    ensures IsSettled(w, d0, Last(d, Restore(w, d, target, expected, c).steps), t, wanted)
  {
    EntryTouches(w, d0, d, s, target, expected, c);
    if t == target && Restore(w, d, target, expected, c).result == Success(Restored) {
      SuccessfulEntry(w, d0, d, s, target, expected, c);
    } else if target != [] {
      assert t != TempPath(target, c.tag);
      assert SameAt(d, Last(d, Restore(w, d, target, expected, c).steps), t);
    }
  }

  lemma RunUnfolds(w: World, d0: Disk, effect: DeployEffect, choices: nat -> Choice, n: nat)
    returns (d: Disk, a: Attempt<Outcome>)
    requires 0 < n <= |effect.writes|
    ensures d == Last(d0, RestoreFirst(w, d0, effect, choices, n - 1).steps)
    ensures a == Restore(w, d, TargetOf(effect, n - 1), effect.writes[n - 1].expectedSha256, choices(n - 1))
    ensures RestoreFirst(w, d0, effect, choices, n).results
         == RestoreFirst(w, d0, effect, choices, n - 1).results + [a.result]
    ensures Last(d0, RestoreFirst(w, d0, effect, choices, n).steps) == Last(d, a.steps)
  {
    var before := RestoreFirst(w, d0, effect, choices, n - 1);
    d := Last(d0, before.steps);
    a := Restore(w, d, TargetOf(effect, n - 1), effect.writes[n - 1].expectedSha256, choices(n - 1));
    Continues(d0, [], before.steps, a.steps);
  }

  // Entry n - 1 of a run: the state it starts from, and what it adds.
  lemma RunStep(w: World, d0: Disk, effect: DeployEffect, choices: nat -> Choice, n: nat)
    returns (d: Disk, a: Attempt<Outcome>)
    requires SafeStart(w, d0, effect, choices) && 0 < n <= |effect.writes|
    ensures d == Last(d0, RestoreFirst(w, d0, effect, choices, n - 1).steps)
    ensures a == Restore(w, d, TargetOf(effect, n - 1), effect.writes[n - 1].expectedSha256, choices(n - 1))
    ensures RestoreFirst(w, d0, effect, choices, n).results
         == RestoreFirst(w, d0, effect, choices, n - 1).results + [a.result]
    ensures Last(d0, RestoreFirst(w, d0, effect, choices, n).steps) == Last(d, a.steps)
    ensures Inv(w, d0, d, ScopeOf(effect, choices)) && ScopeIsClear(w, d0, ScopeOf(effect, choices))
    ensures EntryIsClear(w, d0, effect, choices, n - 1) && TargetOf(effect, n - 1) in ScopeOf(effect, choices).targets
    ensures TargetOf(effect, n - 1) != [] ==>
              TempPath(TargetOf(effect, n - 1), choices(n - 1).tag) in ScopeOf(effect, choices).temps
  {
    d, a := RunUnfolds(w, d0, effect, choices, n);
    RunKeepsInv(w, d0, effect, choices, n - 1);
    ScopeOfSafeStart(w, d0, effect, choices);
  }

  lemma LastEntryIsSettled(w: World, d0: Disk, effect: DeployEffect, choices: nat -> Choice, n: nat)
    requires SafeStart(w, d0, effect, choices) && 0 < n <= |effect.writes|
    requires RestoreFirst(w, d0, effect, choices, n).results[n - 1].Success?
    ensures IsSettled(w, d0, Last(d0, RestoreFirst(w, d0, effect, choices, n).steps),
                      TargetOf(effect, n - 1), effect.writes[n - 1].expectedSha256)
  {
    var d, a := RunStep(w, d0, effect, choices, n);
    SuccessfulEntry(w, d0, d, ScopeOf(effect, choices), TargetOf(effect, n - 1),
                    effect.writes[n - 1].expectedSha256, choices(n - 1));
  }

  lemma EarlierEntryStaysSettled(w: World, d0: Disk, effect: DeployEffect, choices: nat -> Choice, n: nat, i: nat)
    requires SafeStart(w, d0, effect, choices) && i < n - 1 && n <= |effect.writes|
    requires IsSettled(w, d0, Last(d0, RestoreFirst(w, d0, effect, choices, n - 1).steps),
                       TargetOf(effect, i), effect.writes[i].expectedSha256)
    ensures IsSettled(w, d0, Last(d0, RestoreFirst(w, d0, effect, choices, n).steps),
                      TargetOf(effect, i), effect.writes[i].expectedSha256)
  {
    var d, a := RunStep(w, d0, effect, choices, n);
    assert TargetOf(effect, i) in ScopeOf(effect, choices).targets;
    EntryKeepsSettled(w, d0, d, ScopeOf(effect, choices), TargetOf(effect, i), effect.writes[i].expectedSha256,
                      TargetOf(effect, n - 1), effect.writes[n - 1].expectedSha256, choices(n - 1));
  }

  /** After a run, whether or not other entries failed, every entry that succeeded has
      its target at the expected hash or holding a newest backup, even if several
      entries share a target. */
  lemma {:induction false} SuccessfulTargetsAreSettled(w: World, d0: Disk, effect: DeployEffect,
                                                       choices: nat -> Choice, n: nat, i: nat)
    requires SafeStart(w, d0, effect, choices) && i < n <= |effect.writes|
    requires RestoreFirst(w, d0, effect, choices, n).results[i].Success?
    ensures IsSettled(w, d0, Last(d0, RestoreFirst(w, d0, effect, choices, n).steps),
                      TargetOf(effect, i), effect.writes[i].expectedSha256)
  {
    if i == n - 1 {
      LastEntryIsSettled(w, d0, effect, choices, n);
    } else {
      SuccessfulTargetsAreSettled(w, d0, effect, choices, n - 1, i);
      EarlierEntryStaysSettled(w, d0, effect, choices, n, i);
    }
  }

  // ------------------------------------------------------------------
  // What a failed entry leaves behind
  // ------------------------------------------------------------------

  // The calls whose failure comes after the temporary file was created.
  predicate IsLateFailure(r: Result<Outcome, Reason>) {
    r == Failure(Io(WriteTemp)) || r == Failure(Io(SyncTemp)) || r == Failure(Io(RenameTemp))
  }

  predicate LeavesTemp(d: Disk, a: Attempt<Outcome>, target: Path, c: Choice)
    requires target != []
  {
    TempPath(target, c.tag) in Last(d, a.steps).files
  }

  lemma ReplaceLeavesTemp(d: Disk, target: Path, bytes: Bytes, c: Choice)
    requires target != [] && TempPath(target, c.tag) !in d.files
    ensures var a := ReplaceByRename(d, target, bytes, c);
      LeavesTemp(d, a, target, c) <==> IsLateFailure(a.result)
  {
    TempNameDiffers(target, c.tag);
  }

  lemma ReplaceWithDirsLeavesTemp(d: Disk, target: Path, bytes: Bytes, c: Choice)
    requires target != [] && TempPath(target, c.tag) !in d.files
    ensures var a := Replace(d, target, bytes, c);
      LeavesTemp(d, a, target, c) <==> IsLateFailure(a.result)
  {
    if Parent(target) in d.dirs {
      ReplaceLeavesTemp(d, target, bytes, c);
    } else {
      var d1 := WithDirs(d, Parent(target), c.now);
      ReplaceLeavesTemp(d1, target, bytes, c);
      Continues(d, [], [d1], ReplaceByRename(d1, target, bytes, c).steps);
    }
  }

  /** Whatever happens to an entry, its temporary file is left behind exactly when
      writing, syncing or renaming it is what failed. */
  lemma TempIsLeftExactly(w: World, d: Disk, target: Path, expected: string, c: Choice)
    requires target != [] && TempPath(target, c.tag) !in d.files
    ensures var a := Restore(w, d, target, expected, c);
      LeavesTemp(d, a, target, c) <==> IsLateFailure(a.result)
  {
    match FindBackup(w, d, target, expected, c)
    case Success(Backup(backup)) =>
      var loaded := Load(w, d, backup, c);
      LoadTouchesNoFile(w, d, backup, c);
      LoadFailsEarly(w, d, backup, c);
      match loaded.result {
        case Failure(_) =>
        case Success(bytes) =>
          var middle := Last(d, loaded.steps);
          ReplaceWithDirsLeavesTemp(middle, target, bytes, c);
          Continues(d, [], loaded.steps, Replace(middle, target, bytes, c).steps);
      }
    case _ =>
  }

  lemma LoadFailsEarly(w: World, d: Disk, backup: Path, c: Choice)
    requires backup != []
    ensures Load(w, d, backup, c).result.Failure? ==>
              !IsLateFailure(Failure(Load(w, d, backup, c).result.error))
  {
  }

  // The entry finds a backup, loads it, and then meets a directory in its target's
  // place: one that was there, or one that opening the content store made.
  predicate MeetsDirectory(w: World, d: Disk, target: Path, expected: string, c: Choice) {
    match FindBackup(w, d, target, expected, c)
    case Success(Backup(backup)) =>
      var loaded := Load(w, d, backup, c);
      loaded.result.Success? && target in Last(d, loaded.steps).dirs
    case _ => false
  }

  /** Without failing calls, and where no directory has the temporary name, a temporary
      file is left behind exactly when a backup loads and its target is a directory. */
  lemma DirectoryTargetLeavesTemp(w: World, d: Disk, target: Path, expected: string, c: Choice)
    requires target != [] && c.fault.None? && DirsClosed(d)
    requires TempPath(target, c.tag) !in d.files && TempPath(target, c.tag) !in d.dirs
    requires TempPath(target, c.tag) !in Prefixes(StoreRoot(w))
    ensures var a := Restore(w, d, target, expected, c);
      && (LeavesTemp(d, a, target, c) <==> MeetsDirectory(w, d, target, expected, c))
      && (MeetsDirectory(w, d, target, expected, c) ==> a.result == Failure(Io(RenameTemp)))
  {
    TempIsLeftExactly(w, d, target, expected, c);
    match FindBackup(w, d, target, expected, c)
    case Success(Backup(backup)) =>
      var loaded := Load(w, d, backup, c);
      LoadFailsEarly(w, d, backup, c);
      if loaded.result.Success? {
        var middle := Last(d, loaded.steps);
        assert Parent(BackupsDir(target)) == Parent(target);
        LoadKeepsDirs(w, d, backup, c);
        CalmReplaceResult(middle, target, loaded.result.value, c);
      }
    case _ =>
  }

  lemma LoadKeepsDirs(w: World, d: Disk, backup: Path, c: Choice)
    requires backup != []
    ensures var middle := Last(d, Load(w, d, backup, c).steps);
      d.dirs.Keys <= middle.dirs.Keys <= d.dirs.Keys + Prefixes(StoreRoot(w))
  {
  }

  lemma CalmReplaceResult(d: Disk, target: Path, bytes: Bytes, c: Choice)
    requires target != [] && c.fault.None? && Parent(target) in d.dirs && TempPath(target, c.tag) !in d.dirs
    ensures Replace(d, target, bytes, c).result
         == if target in d.dirs then Failure(Io(RenameTemp)) else Success(Restored)
  {
  }
}
