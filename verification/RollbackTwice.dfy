/** Rolling back twice: what every target holds after a run in which failing calls made
    no entry fail, and that whatever fails in a second run, it changes nothing. */
module RollbackTwice {
  import opened Wrappers
  import opened RollbackDisk
  import opened Rollback
  import opened RollbackSafety
  import opened RollbackRerun

  // ------------------------------------------------------------------
  // What an entry would restore
  // ------------------------------------------------------------------

  // The backup an entry would use, if its target needs one.
  function Search(d: Disk, target: Path, order: seq<string>): Option<Path> {
    if !HasFileName(target) || BackupsDir(target) !in d.dirs then None
    else
      var candidates := Candidates(d, BackupsDir(target), Name(target) + ".", order);
      if candidates == [] then None else Some(BackupsDir(target) + [NewestFirst(candidates)[0].name])
  }

  const CALM: Choice := Choice([], "", 0, None)

  function Loads(w: World, d: Disk, backup: Path): Option<Bytes>
    requires backup != []
  {
    match Load(w, d, backup, CALM).result
    case Success(bytes) => Some(bytes)
    case Failure(_) => None
  }

  // The bytes an entry would restore; nothing can replace a directory.
  function Replacement(w: World, d: Disk, target: Path, order: seq<string>): Option<Bytes> {
    if target in d.dirs then None
    else
      match Search(d, target, order)
      case None => None
      case Some(backup) => Loads(w, d, backup)
  }

  function BytesAt(d: Disk, p: Path): Option<Bytes> {
    if p in d.files then Some(d.files[p].bytes) else None
  }

  // What one entry makes of what its target holds.
  function NextBytes(w: World, held: Option<Bytes>, expected: string, replacement: Option<Bytes>): Option<Bytes> {
    if (held.Some? && w.hash(held.value) == expected) || replacement.None? then held else replacement
  }

  // ------------------------------------------------------------------
  // It depends only on the disk the run started from
  // ------------------------------------------------------------------

  // No file of the run is where the store's own directories are or go, and no
  // directory has a temporary name.
  ghost predicate ClearOfDirs(w: World, d0: Disk, s: Scope) {
    && s.targets !! Prefixes(StoreRoot(w))
    && s.temps !! Prefixes(StoreRoot(w))
    && s.temps !! d0.dirs.Keys
  }

  ghost predicate Steady(w: World, d0: Disk, d: Disk, s: Scope) {
    Inv(w, d0, d, s) && ScopeIsClear(w, d0, s) && ClearOfDirs(w, d0, s)
  }

  lemma SameDirs(w: World, d0: Disk, d: Disk, s: Scope, p: Path)
    requires Steady(w, d0, d, s)
    requires p in s.targets || p in s.temps || InBackups(p) || |p| > |StoreRoot(w)| || (p != [] && Name(p) == BACKUPS)
    ensures p in d.dirs <==> p in d0.dirs
  {
    StoreAncestorsAreNoBackups(w, p);
  }

  lemma SameBlocking(w: World, d0: Disk, d: Disk, s: Scope)
    requires Steady(w, d0, d, s)
    ensures BlockedByFile(d, StoreRoot(w)) <==> BlockedByFile(d0, StoreRoot(w))
  {
    var root := StoreRoot(w);
    forall k | 0 <= k <= |root| ensures root[..k] in d.files <==> root[..k] in d0.files {
      assert root[..k] in Prefixes(root);
    }
  }

  lemma SameSearch(w: World, d0: Disk, d: Disk, s: Scope, target: Path, order: seq<string>)
    requires Steady(w, d0, d, s)
    ensures Search(d, target, order) == Search(d0, target, order)
  {
    if HasFileName(target) {
      SameDirs(w, d0, d, s, BackupsDir(target));
      SameCandidates(w, d0, d, s, target, Name(target) + ".", order);
    }
  }

  // The store's answer, whatever has been created on the way.
  lemma SameLoad(w: World, d0: Disk, d: Disk, s: Scope, backup: Path, c: Choice)
    requires Steady(w, d0, d, s) && backup != [] && InBackups(backup)
    requires c.fault.None? || Load(w, d, backup, c).result.Success?
    ensures Load(w, d, backup, c).result == Load(w, d0, backup, CALM).result
  {
    BackupsAreUnchanged(w, d0, d, s, backup);
    SameBlocking(w, d0, d, s);
    if backup in d.files && IsPointer(Name(backup)) && w.parse(d.files[backup].bytes).Some? {
      var sha256 := w.parse(d.files[backup].bytes).value;
      if IsHash(sha256) {
        StorePathIsInStore(w, sha256);
        StoreIsUnchanged(w, d0, d, s, StorePath(w.store, sha256));
        SameDirs(w, d0, d, s, StorePath(w.store, sha256));
      }
    }
  }

  lemma SearchIsInBackups(d: Disk, target: Path, order: seq<string>)
    requires Search(d, target, order).Some?
    ensures var p := Search(d, target, order).value; p != [] && InBackups(p)
  {
    var p, dir := Search(d, target, order).value, BackupsDir(target);
    assert |p| == |dir| + 1 && p[|p| - 2] == dir[|dir| - 1] == BACKUPS;
  }

  lemma SameReplacement(w: World, d0: Disk, d: Disk, s: Scope, target: Path, order: seq<string>)
    requires Steady(w, d0, d, s) && target in s.targets
    ensures Replacement(w, d, target, order) == Replacement(w, d0, target, order)
  {
    SameDirs(w, d0, d, s, target);
    SameSearch(w, d0, d, s, target, order);
    if Search(d0, target, order).Some? {
      SearchIsInBackups(d0, target, order);
      SameLoad(w, d0, d, s, Search(d0, target, order).value, CALM);
    }
  }

  // ------------------------------------------------------------------
  // One entry, then a run, as a function of what its targets held
  // ------------------------------------------------------------------

  lemma FoundBySearch(w: World, d: Disk, target: Path, expected: string, c: Choice)
    requires c.fault.None? || FindBackup(w, d, target, expected, c).Success?
    ensures FindBackup(w, d, target, expected, c) == Success(Current) <==>
              BytesAt(d, target).Some? && w.hash(BytesAt(d, target).value) == expected
    ensures !(BytesAt(d, target).Some? && w.hash(BytesAt(d, target).value) == expected) ==>
              match Search(d, target, c.order)
              case None => FindBackup(w, d, target, expected, c).Failure?
              case Some(backup) => FindBackup(w, d, target, expected, c) == Success(Backup(backup))
  {
  }

  lemma ReplaceSetsBytes(d: Disk, target: Path, bytes: Bytes, c: Choice)
    requires target != [] && TempPath(target, c.tag) !in d.dirs
    ensures var a := ReplaceByRename(d, target, bytes, c);
      && (a.result.Success? ==> target !in d.dirs && BytesAt(Last(d, a.steps), target) == Some(bytes))
      && (a.result.Failure? ==> BytesAt(Last(d, a.steps), target) == BytesAt(d, target))
      && (c.fault.None? ==> (a.result.Success? <==> target !in d.dirs))
  {
    TempNameDiffers(target, c.tag);
  }

  // No failing call made the entry fail.
  predicate IsUntroubled(c: Choice, result: Result<Outcome, Reason>) {
    c.fault.None? || result.Success?
  }

  // An entry turns what its target holds into NextBytes, or leaves it alone if a failing
  // call made the entry fail.
  lemma EntryBytes(w: World, d0: Disk, d: Disk, s: Scope, target: Path, expected: string, c: Choice)
    requires Steady(w, d0, d, s) && target in s.targets
    requires target != [] ==> TempPath(target, c.tag) in s.temps && IsListing(d0, BackupsDir(target), c.order)
    ensures var a := Restore(w, d, target, expected, c);
      var after := BytesAt(Last(d, a.steps), target);
      if IsUntroubled(c, a.result) then
        after == NextBytes(w, BytesAt(d, target), expected, Replacement(w, d0, target, c.order))
      else after == BytesAt(d, target)
  {
    SameSearch(w, d0, d, s, target, c.order);
    SameDirs(w, d0, d, s, target);
    var found := FindBackup(w, d, target, expected, c);
    if c.fault.None? || found.Success? {
      FoundBySearch(w, d, target, expected, c);
    }
    if found.Success? && found.value.Backup? {
      SearchIsInBackups(d, target, c.order);
      var loaded, middle := RestoreWithBackup(w, d0, d, s, target, expected, c);
      LoadKeepsInv(w, d0, d, s, found.value.path, c);
      SameDirs(w, d0, middle, s, target);
      SameDirs(w, d0, middle, s, TempPath(target, c.tag));
      if c.fault.None? || loaded.result.Success? {
        SameLoad(w, d0, d, s, found.value.path, c);
      }
      if loaded.result.Success? {
        ReplaceSetsBytes(middle, target, loaded.result.value, c);
      }
    }
  }

  // What target t holds after the first n entries.
  function RunBytes(w: World, effect: DeployEffect, t: Path, replacement: Option<Bytes>, held: Option<Bytes>, n: nat)
    : Option<Bytes>
    requires n <= |effect.writes|
  {
    if n == 0 then held
    else
      var before := RunBytes(w, effect, t, replacement, held, n - 1);
      if TargetOf(effect, n - 1) == t then NextBytes(w, before, effect.writes[n - 1].expectedSha256, replacement) else before
  }

  // Directories are listed in a given order.
  ghost predicate IsListed(effect: DeployEffect, choices: nat -> Choice, listing: Path -> seq<string>) {
    forall i :: 0 <= i < |effect.writes| ==> choices(i).order == listing(TargetOf(effect, i))
  }

  function ResultOf(w: World, d0: Disk, effect: DeployEffect, choices: nat -> Choice, i: nat): Result<Outcome, Reason>
    requires i < |effect.writes|
  {
    RestoreFirst(w, d0, effect, choices, i + 1).results[i]
  }

  function HeldAfter(w: World, d0: Disk, effect: DeployEffect, choices: nat -> Choice, t: Path, n: nat): Option<Bytes>
    requires n <= |effect.writes|
  {
    BytesAt(Last(d0, RestoreFirst(w, d0, effect, choices, n).steps), t)
  }

  // Each of the first n entries succeeds or has no failing call.
  ghost predicate IsUntroubledRun(w: World, d0: Disk, effect: DeployEffect, choices: nat -> Choice, n: nat)
    requires n <= |effect.writes|
  {
    n == 0 || (IsUntroubledRun(w, d0, effect, choices, n - 1)
               && IsUntroubled(choices(n - 1), ResultOf(w, d0, effect, choices, n - 1)))
  }

  // Entry n - 1 changes what target t holds to the next bytes, or not at all.
  lemma RunStepBytes(w: World, d0: Disk, effect: DeployEffect, choices: nat -> Choice,
                     listing: Path -> seq<string>, t: Path, n: nat)
    requires SafeStart(w, d0, effect, choices) && IsListed(effect, choices, listing) && 0 < n <= |effect.writes|
    requires ClearOfDirs(w, d0, ScopeOf(effect, choices)) && t in ScopeOf(effect, choices).targets
    ensures var before := HeldAfter(w, d0, effect, choices, t, n - 1);
      HeldAfter(w, d0, effect, choices, t, n) ==
      if TargetOf(effect, n - 1) == t && IsUntroubled(choices(n - 1), ResultOf(w, d0, effect, choices, n - 1)) then
        NextBytes(w, before, effect.writes[n - 1].expectedSha256, Replacement(w, d0, t, listing(t)))
      else before
  {
    var s := ScopeOf(effect, choices);
    var target, expected, c := TargetOf(effect, n - 1), effect.writes[n - 1].expectedSha256, choices(n - 1);
    var d, a := RunStep(w, d0, effect, choices, n);
    assert c.order == listing(target);
    if target == t {
      EntryBytes(w, d0, d, s, target, expected, c);
    } else {
      EntryTouches(w, d0, d, s, target, expected, c);
      assert target != [] ==> t != TempPath(target, c.tag) && SameAt(d, Last(d, a.steps), t);
    }
  }

  lemma OneMoreEntry(w: World, effect: DeployEffect, t: Path, replacement: Option<Bytes>, held: Option<Bytes>, n: nat,
                     before: Option<Bytes>, after: Option<Bytes>)
    requires 0 < n <= |effect.writes| && before == RunBytes(w, effect, t, replacement, held, n - 1)
    requires after == if TargetOf(effect, n - 1) == t then
                        NextBytes(w, before, effect.writes[n - 1].expectedSha256, replacement)
                      else before
    ensures after == RunBytes(w, effect, t, replacement, held, n)
  {
  }

  lemma {:induction false} RunContents(w: World, d0: Disk, effect: DeployEffect, choices: nat -> Choice,
                                       listing: Path -> seq<string>, t: Path, n: nat)
    requires SafeStart(w, d0, effect, choices) && IsListed(effect, choices, listing)
    requires n <= |effect.writes| && IsUntroubledRun(w, d0, effect, choices, n)
    requires ClearOfDirs(w, d0, ScopeOf(effect, choices)) && t in ScopeOf(effect, choices).targets
    ensures HeldAfter(w, d0, effect, choices, t, n)
         == RunBytes(w, effect, t, Replacement(w, d0, t, listing(t)), BytesAt(d0, t), n)
  {
    if n > 0 {
      RunContents(w, d0, effect, choices, listing, t, n - 1);
      var replacement := Replacement(w, d0, t, listing(t));
      RunStepBytes(w, d0, effect, choices, listing, t, n);
      OneMoreEntry(w, effect, t, replacement, BytesAt(d0, t), n, HeldAfter(w, d0, effect, choices, t, n - 1),
                   HeldAfter(w, d0, effect, choices, t, n));
    }
  }

  // No entry has a reason to change what the target holds.
  ghost predicate IsAtRest(w: World, effect: DeployEffect, t: Path, replacement: Option<Bytes>, held: Option<Bytes>,
                           n: nat)
    requires n <= |effect.writes|
  {
    forall i :: 0 <= i < n && TargetOf(effect, i) == t ==>
      NextBytes(w, held, effect.writes[i].expectedSha256, replacement) == held
  }

  lemma {:induction false} RunComesToRest(w: World, effect: DeployEffect, t: Path, replacement: Option<Bytes>,
                                          held: Option<Bytes>, n: nat)
    requires n <= |effect.writes|
    ensures IsAtRest(w, effect, t, replacement, RunBytes(w, effect, t, replacement, held, n), n)
  {
    if n > 0 {
      RunComesToRest(w, effect, t, replacement, held, n - 1);
    }
  }

  lemma {:induction false} StaysAtRest(w: World, d1: Disk, effect: DeployEffect, choices: nat -> Choice,
                                       listing: Path -> seq<string>, t: Path, n: nat)
    requires SafeStart(w, d1, effect, choices) && IsListed(effect, choices, listing) && n <= |effect.writes|
    requires ClearOfDirs(w, d1, ScopeOf(effect, choices)) && t in ScopeOf(effect, choices).targets
    requires IsAtRest(w, effect, t, Replacement(w, d1, t, listing(t)), BytesAt(d1, t), |effect.writes|)
    ensures HeldAfter(w, d1, effect, choices, t, n) == BytesAt(d1, t)
  {
    if n > 0 {
      StaysAtRest(w, d1, effect, choices, listing, t, n - 1);
      RunStepBytes(w, d1, effect, choices, listing, t, n);
    }
  }

  /** If no failing call made an entry of a run fail, then running the restore loop a
      second time, with the same listings of the backup directories and whatever failing
      calls, changes the bytes of no file except temporary ones, whatever the first run
      kept, restored or could not restore. */
  lemma SecondRunChangesNothing(w: World, d0: Disk, effect: DeployEffect, first: nat -> Choice, second: nat -> Choice,
                                listing: Path -> seq<string>, p: Path)
    requires IsListed(effect, first, listing) && IsListed(effect, second, listing)
    requires SafeStart(w, d0, effect, first) && ClearOfDirs(w, d0, ScopeOf(effect, first))
    requires IsUntroubledRun(w, d0, effect, first, |effect.writes|)
    requires var d1 := Last(d0, RestoreFirst(w, d0, effect, first, |effect.writes|).steps);
      SafeStart(w, d1, effect, second) && ClearOfDirs(w, d1, ScopeOf(effect, second))
    requires p !in ScopeOf(effect, second).temps
    ensures var d1 := Last(d0, RestoreFirst(w, d0, effect, first, |effect.writes|).steps);
      var d2 := Last(d1, RestoreFirst(w, d1, effect, second, |effect.writes|).steps);
      SameBytesAt(d1, d2, p)
  {
    var n := |effect.writes|;
    var d1 := Last(d0, RestoreFirst(w, d0, effect, first, n).steps);
    RunKeepsInv(w, d0, effect, first, n);
    RunKeepsInv(w, d1, effect, second, n);
    if p in ScopeOf(effect, second).targets {
      ScopeOfSafeStart(w, d0, effect, first);
      RunContents(w, d0, effect, first, listing, p, n);
      SameReplacement(w, d0, d1, ScopeOf(effect, first), p, listing(p));
      RunComesToRest(w, effect, p, Replacement(w, d0, p, listing(p)), BytesAt(d0, p), n);
      StaysAtRest(w, d1, effect, second, listing, p, n);
    }
  }

  lemma FrontResults(w: World, d0: Disk, effect: DeployEffect, choices: nat -> Choice, n: nat)
    requires 0 < n <= |effect.writes|
    requires AllSucceed(RestoreFirst(w, d0, effect, choices, n).results)
    ensures ResultOf(w, d0, effect, choices, n - 1).Success?
    ensures AllSucceed(RestoreFirst(w, d0, effect, choices, n - 1).results)
  {
    var d, a := RunUnfolds(w, d0, effect, choices, n);
    var before := RestoreFirst(w, d0, effect, choices, n - 1).results;
    var all := RestoreFirst(w, d0, effect, choices, n).results;
    assert forall i :: 0 <= i < n - 1 ==> before[i] == all[i];
  }

  lemma {:induction false} AllWellIsUntroubled(w: World, d0: Disk, effect: DeployEffect, choices: nat -> Choice, n: nat)
    requires n <= |effect.writes|
    requires AllSucceed(RestoreFirst(w, d0, effect, choices, n).results)
    ensures IsUntroubledRun(w, d0, effect, choices, n)
  {
    if n > 0 {
      FrontResults(w, d0, effect, choices, n);
      AllWellIsUntroubled(w, d0, effect, choices, n - 1);
    }
  }

  /** In particular after a run in which no entry failed, which is one that marks the
      operation as rolled back. */
  lemma RolledBackIsFinal(w: World, d0: Disk, effect: DeployEffect, first: nat -> Choice, second: nat -> Choice,
                          listing: Path -> seq<string>, p: Path)
    requires IsListed(effect, first, listing) && IsListed(effect, second, listing)
    requires SafeStart(w, d0, effect, first) && ClearOfDirs(w, d0, ScopeOf(effect, first))
    requires AllSucceed(RestoreFirst(w, d0, effect, first, |effect.writes|).results)
    requires var d1 := Last(d0, RestoreFirst(w, d0, effect, first, |effect.writes|).steps);
      SafeStart(w, d1, effect, second) && ClearOfDirs(w, d1, ScopeOf(effect, second))
    requires p !in ScopeOf(effect, second).temps
    ensures var d1 := Last(d0, RestoreFirst(w, d0, effect, first, |effect.writes|).steps);
      var d2 := Last(d1, RestoreFirst(w, d1, effect, second, |effect.writes|).steps);
      SameBytesAt(d1, d2, p)
  {
    AllWellIsUntroubled(w, d0, effect, first, |effect.writes|);
    SecondRunChangesNothing(w, d0, effect, first, second, listing, p);
  }
}
