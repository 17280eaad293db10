/** What restoring one entry comes to when no call fails, for every disk: which backup is
    used, whether it can be read, and how the entry ends. */
module RollbackOutcome {
  import opened Wrappers
  import opened RollbackDisk
  import opened Rollback
  import opened RollbackSafety
  import opened RollbackRerun
  import opened Texts

  // ------------------------------------------------------------------
  // Paths and directories
  // ------------------------------------------------------------------

  // No file has the path of a directory.
  ghost predicate PathsAreDistinct(d: Disk) {
    d.files.Keys !! d.dirs.Keys
  }

  /** Making a directory makes each of its ancestors that is missing, and changes nothing
      else; it is impossible exactly when a file has one of their paths. */
  lemma DirsAreMadeExactly(d: Disk, p: Path, now: int)
    ensures WithDirs(d, p, now).files == d.files
    ensures forall q :: q in WithDirs(d, p, now).dirs <==> q in d.dirs || q <= p
    ensures forall q :: q in d.dirs ==> WithDirs(d, p, now).dirs[q] == d.dirs[q]
    ensures BlockedByFile(d, p) <==> exists q :: q in d.files && q <= p
  {
    forall q ensures q in Prefixes(p) <==> q <= p {
      if q <= p {
        assert q == p[..|q|];
      }
    }
    if exists q :: q in d.files && q <= p {
      var q :| q in d.files && q <= p;
      assert p[..|q|] == q;
    }
    if BlockedByFile(d, p) {
      var k :| 0 <= k <= |p| && p[..k] in d.files;
      assert p[..k] <= p;
    }
  }

  /** Backups stand in a directory of that name beside the target, and the temporary file
      beside it under a hidden name. */
  lemma BesideTheTarget(dir: Path, name: string, tag: string)
    ensures BackupsDir(dir + [name]) == dir + [".backups"]
    ensures TempPath(dir + [name], tag) == dir + ["." + name + ".rollback-tmp." + tag]
  {
    assert (dir + [name])[..|dir|] == dir;
  }

  predicate IsHexHash(s: string) {
    |s| == 64 && forall i :: 0 <= i < |s| ==> s[i] in "0123456789abcdefABCDEF"
  }

  lemma HashesAreHex(s: string)
    ensures IsHash(s) <==> IsHexHash(s)
  {
    forall i | 0 <= i < |s| ensures IsHexDigit(s[i]) <==> s[i] in "0123456789abcdefABCDEF" {
      HexDigitsAreThose(s[i]);
    }
  }

  /** An object of the content store lies two levels down, by the first four digits. */
  lemma ObjectsLieThere(store: Path, a: string, b: string, rest: string)
    requires |a| == 2 && |b| == 2 && |rest| == 60
    ensures StorePath(store, a + (b + rest)) == store + ["sha256", a, b, a + (b + rest)]
  {
    var h := a + (b + rest);
    assert h[..2] == a && h[2..4] == b;
  }

  // ------------------------------------------------------------------
  // Which backup
  // ------------------------------------------------------------------

  predicate IsAsDeployed(w: World, d: Disk, target: Path, expected: string) {
    target in d.files && w.hash(d.files[target].bytes) == expected
  }

  predicate HasNoName(target: Path) {
    target == [] || target[|target| - 1] == ".."
  }

  // An entry of the backup directory whose name goes on after the target's and a dot.
  predicate IsMatch(d: Disk, target: Path, name: string)
    requires target != []
  {
    HasEntry(d, target[..|target| - 1] + [".backups", name]) && target[|target| - 1] + "." <= name
  }

  lemma EntriesAreThere(target: Path, name: string)
    requires target != []
    ensures BackupsDir(target) == target[..|target| - 1] + [".backups"]
    ensures BackupsDir(target) + [name] == target[..|target| - 1] + [".backups", name]
  {
  }

  lemma NoMatchNoCandidate(d: Disk, target: Path, order: seq<string>)
    requires target != [] && IsListing(d, BackupsDir(target), order)
    ensures Candidates(d, BackupsDir(target), Name(target) + ".", order) == [] <==>
              forall name :: !IsMatch(d, target, name)
  {
    var dir, prefix := BackupsDir(target), Name(target) + ".";
    var cs := Candidates(d, dir, prefix, order);
    if cs != [] {
      CandidatesAreTheMatches(d, dir, prefix, order, cs[0]);
      EntriesAreThere(target, cs[0].name);
      assert IsMatch(d, target, cs[0].name);
    }
    if name :| IsMatch(d, target, name) {
      EntriesAreThere(target, name);
      CandidatesAreTheMatches(d, dir, prefix, order, Candidate(MtimeOf(d, dir + [name]), name));
    }
  }

  /** A target that is as it was deployed needs no backup.  Otherwise a backup is found if
      and only if the target has a name, its backup directory is there and some entry of
      it matches; which of these is missing is the reason given. */
  lemma FoundExactly(w: World, d: Disk, target: Path, expected: string, c: Choice)
    requires c.fault.None? && (target != [] ==> IsListing(d, BackupsDir(target), c.order))
    ensures var found := FindBackup(w, d, target, expected, c);
      if IsAsDeployed(w, d, target, expected) then found == Success(Current)
      else if HasNoName(target) then found == Failure(NoFileName)
      else if target[..|target| - 1] + [".backups"] !in d.dirs then found == Failure(NoBackupsDir)
      else if forall name :: !IsMatch(d, target, name) then found == Failure(NoBackup)
      else exists name :: found == Success(Backup(target[..|target| - 1] + [".backups", name]))
                          && IsNewest(d, BackupsDir(target), Name(target) + ".", name)
  {
    if !HasNoName(target) {
      EntriesAreThere(target, "");
      NoMatchNoCandidate(d, target, c.order);
      var candidates := Candidates(d, BackupsDir(target), Name(target) + ".", c.order);
      if candidates != [] {
        FirstIsNewest(d, BackupsDir(target), Name(target) + ".", c.order);
        EntriesAreThere(target, NewestFirst(candidates)[0].name);
      }
    }
  }

  lemma {:induction false} FirstOfAppended(cs: seq<Candidate>, c: Candidate)
    ensures NewestFirst(cs + [c])[0] ==
            if cs == [] || NewestFirst(cs)[0].mtime < c.mtime then c else NewestFirst(cs)[0]
  {
    if cs == [] {
      assert [] + [c] == [c] && [c][1..] == [];
    } else {
      FirstOfAppended(cs[1..], c);
      assert (cs + [c])[1..] == cs[1..] + [c];
    }
  }

  // The listed name k matches; none that matches is newer, and none listed before it as new.
  ghost predicate IsFirstNewest(d: Disk, dir: Path, prefix: string, order: seq<string>, k: nat) {
    && k < |order| && prefix <= order[k]
    && (forall j :: 0 <= j < |order| && prefix <= order[j] ==> MtimeOf(d, dir + [order[j]]) <= MtimeOf(d, dir + [order[k]]))
    && (forall j :: 0 <= j < k && prefix <= order[j] ==> MtimeOf(d, dir + [order[j]]) < MtimeOf(d, dir + [order[k]]))
  }

  /** Of equally new backups the first listed is used. */
  lemma {:induction false} FirstListedIsPicked(d: Disk, dir: Path, prefix: string, order: seq<string>) returns (k: nat)
    requires Candidates(d, dir, prefix, order) != []
    ensures IsFirstNewest(d, dir, prefix, order, k)
    ensures NewestFirst(Candidates(d, dir, prefix, order))[0] == Candidate(MtimeOf(d, dir + [order[k]]), order[k])
    decreases |order|
  {
    var n := |order| - 1;
    var front, name := order[..n], order[n];
    var cs := Candidates(d, dir, prefix, front);
    var c := Candidate(MtimeOf(d, dir + [name]), name);
    FirstOfAppended(cs, c);
    if cs == [] {
      forall j | 0 <= j < n ensures !(prefix <= order[j]) {
        if prefix <= order[j] {
          MatchIsCandidate(d, dir, prefix, front, j);
        }
      }
      k := n;
    } else {
      k := FirstListedIsPicked(d, dir, prefix, front);
      if prefix <= name && MtimeOf(d, dir + [front[k]]) < c.mtime {
        k := n;
      }
    }
  }

  lemma {:induction false} MatchIsCandidate(d: Disk, dir: Path, prefix: string, order: seq<string>, j: nat)
    requires j < |order| && prefix <= order[j]
    ensures Candidates(d, dir, prefix, order) != []
    decreases |order|
  {
    if j < |order| - 1 {
      MatchIsCandidate(d, dir, prefix, order[..|order| - 1], j);
    }
  }

  /** An entry whose modification time cannot be read counts as one of the epoch. */
  lemma TimesAreRead(d: Disk, p: Path, t: int)
    requires PathsAreDistinct(d)
    ensures p in d.files && d.files[p].mtime == Some(t) ==> MtimeOf(d, p) == t
    ensures p in d.dirs && d.dirs[p] == Some(t) ==> MtimeOf(d, p) == t
    ensures p in d.files && d.files[p].mtime == None ==> MtimeOf(d, p) == 0
    ensures p in d.dirs && d.dirs[p] == None ==> MtimeOf(d, p) == 0
  {
  }

  // ------------------------------------------------------------------
  // What can be read
  // ------------------------------------------------------------------

  // A backup as it is read: itself, or the object its pointer refers to.
  function ReadsAs(w: World, d: Disk, backup: Path): Result<Bytes, Reason>
    requires backup != []
  {
    var name := backup[|backup| - 1];
    if backup !in d.files then Failure(Io(ReadBackup))
    else if |name| < 5 || name[|name| - 5..] != ".json" then Success(d.files[backup].bytes)
    else
      match w.parse(d.files[backup].bytes)
      case None => Failure(BadPointer)
      case Some(h) =>
        if BlockedByFile(d, w.store + ["sha256"]) then Failure(Io(OpenStore))
        else if !IsHexHash(h) then Failure(BadHash)
        else
          var path := w.store + ["sha256", h[..2], h[2..4], h];
          if path in d.files then Success(d.files[path].bytes)
          else if path in d.dirs then Failure(Io(ReadStore))
          else Failure(StoreMissing(h))
  }

  /** A backup is loaded exactly if it can be read so, with those bytes; loading changes no
      file. */
  lemma LoadedExactly(w: World, d: Disk, backup: Path, c: Choice)
    requires backup != [] && c.fault.None? && PathsAreDistinct(d)
    ensures Load(w, d, backup, c).result == ReadsAs(w, d, backup)
    ensures Last(d, Load(w, d, backup, c).steps).files == d.files
  {
    LoadTouchesNoFile(w, d, backup, c);
    if backup in d.files && IsPointer(Name(backup)) && w.parse(d.files[backup].bytes).Some? {
      var h := w.parse(d.files[backup].bytes).value;
      HashesAreHex(h);
      if IsHexHash(h) && !BlockedByFile(d, StoreRoot(w)) {
        DirsAreMadeExactly(d, StoreRoot(w), c.now);
        assert |StorePath(w.store, h)| > |StoreRoot(w)|;
      }
    }
  }

  // ------------------------------------------------------------------
  // How the entry ends
  // ------------------------------------------------------------------

  // Neither the target nor its temporary file is in the way of the store's directories,
  // and no directory has the temporary name.
  ghost predicate IsInTheClear(w: World, d: Disk, target: Path, c: Choice) {
    && DirsClosed(d) && PathsAreDistinct(d)
    && (target != [] ==>
          && IsListing(d, BackupsDir(target), c.order)
          && target !in Prefixes(StoreRoot(w)) && TempPath(target, c.tag) !in Prefixes(StoreRoot(w))
          && TempPath(target, c.tag) !in d.dirs)
  }

  /** When no call fails, an entry is kept exactly if its target is as deployed, and
      restored exactly if not and a backup is found and can be read and the target is not
      a directory: then the target holds just those bytes.  In every other case it fails,
      for the first of these reasons. */
  lemma EntryEndsExactly(w: World, d: Disk, target: Path, expected: string, c: Choice)
    requires c.fault.None? && IsInTheClear(w, d, target, c)
    ensures var a, found := Restore(w, d, target, expected, c), FindBackup(w, d, target, expected, c);
      match found
      case Success(Current) => a.result == Success(KeptCurrent) && a.steps == []
      case Failure(reason) => a.result == Failure(reason) && a.steps == []
      case Success(Backup(backup)) =>
        && backup != [] && target != []
        && match ReadsAs(w, d, backup)
           case Failure(reason) => a.result == Failure(reason)
           case Success(bytes) =>
             if target in d.dirs then a.result == Failure(Io(RenameTemp))
             else
               && a.result == Success(Restored)
               && target in Last(d, a.steps).files && Last(d, a.steps).files[target].bytes == bytes
  {
    match FindBackup(w, d, target, expected, c)
    case Success(Backup(backup)) =>
      LoadedExactly(w, d, backup, c);
      LoadKeepsDirs(w, d, backup, c);
      var loaded := Load(w, d, backup, c);
      if loaded.result.Success? {
        var middle := Last(d, loaded.steps);
        assert Parent(BackupsDir(target)) == Parent(target);
        CalmReplaceResult(middle, target, loaded.result.value, c);
        ReplaceTouches(middle, target, loaded.result.value, c);
        Continues(d, [], loaded.steps, Replace(middle, target, loaded.result.value, c).steps);
      }
    case _ =>
  }

  // The calls that restoring an entry from a backup comes to.
  predicate ComesTo(d: Disk, target: Path, backup: Path, stage: Stage)
    requires backup != []
  {
    match stage
    case ReadTarget => target in d.files
    case OpenStore => IsPointer(backup[|backup| - 1])
    case ReadStore => IsPointer(backup[|backup| - 1])
    case CreateDirs => false
    case _ => true
  }

  predicate IsFinding(stage: Stage) {
    stage == ReadTarget || stage == ListBackups || stage == ListEntry
  }

  predicate IsLoading(stage: Stage) {
    stage == ReadBackup || stage == OpenStore || stage == ReadStore
  }

  lemma FailingWhileFinding(w: World, d: Disk, target: Path, expected: string, c: Choice, fault: Fault, backup: Path)
    requires c.fault.None? && backup != [] && ComesTo(d, target, backup, fault.stage)
    requires FindBackup(w, d, target, expected, c) == Success(Backup(backup))
    ensures FindBackup(w, d, target, expected, c.(fault := Some(fault)))
         == if IsFinding(fault.stage) then Failure(Io(fault.stage)) else Success(Backup(backup))
  {
  }

  lemma FailingWhileLoading(w: World, d: Disk, target: Path, c: Choice, fault: Fault, backup: Path)
    requires c.fault.None? && backup != [] && ComesTo(d, target, backup, fault.stage) && !IsFinding(fault.stage)
    requires Load(w, d, backup, c).result.Success?
    ensures IsLoading(fault.stage) ==> Load(w, d, backup, c.(fault := Some(fault))).result == Failure(Io(fault.stage))
    ensures !IsLoading(fault.stage) ==> Load(w, d, backup, c.(fault := Some(fault))) == Load(w, d, backup, c)
  {
  }

  lemma FailingWhileReplacing(d: Disk, target: Path, bytes: Bytes, c: Choice, fault: Fault)
    requires target != [] && c.fault.None? && Parent(target) in d.dirs
    requires Replace(d, target, bytes, c).result == Success(Restored)
    requires fault.stage == CreateTemp || fault.stage == WriteTemp || fault.stage == SyncTemp || fault.stage == RenameTemp
    ensures Replace(d, target, bytes, c.(fault := Some(fault))).result == Failure(Io(fault.stage))
  {
  }

  /** An entry that would be restored fails as soon as one of the calls it comes to does,
      for that reason. */
  lemma FailingCallIsReported(w: World, d: Disk, target: Path, expected: string, c: Choice, fault: Fault, backup: Path)
    requires c.fault.None? && IsInTheClear(w, d, target, c) && backup != []
    requires FindBackup(w, d, target, expected, c) == Success(Backup(backup))
    requires Restore(w, d, target, expected, c).result == Success(Restored)
    requires ComesTo(d, target, backup, fault.stage)
    ensures Restore(w, d, target, expected, c.(fault := Some(fault))).result == Failure(Io(fault.stage))
  {
    FailingWhileFinding(w, d, target, expected, c, fault, backup);
    if !IsFinding(fault.stage) {
      FailingWhileLoading(w, d, target, c, fault, backup);
      if !IsLoading(fault.stage) {
        var loaded := Load(w, d, backup, c);
        LoadKeepsDirs(w, d, backup, c);
        assert target != [] && Parent(BackupsDir(target)) == Parent(target);
        FailingWhileReplacing(Last(d, loaded.steps), target, loaded.result.value, c, fault);
      }
    }
  }
  // ------------------------------------------------------------------
  // The entries together
  // ------------------------------------------------------------------

  // What entry i comes to on this disk, under its own path below the deployment's target.
  function EntryOf(w: World, d: Disk, effect: DeployEffect, choices: nat -> Choice, i: nat): Attempt<Outcome>
    requires i < |effect.writes|
  {
    Restore(w, d, effect.target + effect.writes[i].relative, effect.writes[i].expectedSha256, choices(i))
  }

  lemma {:induction false} ResultsStay(w: World, d: Disk, effect: DeployEffect, choices: nat -> Choice, n: nat, m: nat)
    requires n <= m <= |effect.writes|
    ensures RestoreFirst(w, d, effect, choices, m).results[..n] == RestoreFirst(w, d, effect, choices, n).results
    decreases m
  {
    var results := RestoreFirst(w, d, effect, choices, m).results;
    if n < m {
      ResultsStay(w, d, effect, choices, n, m - 1);
      assert results[..m - 1] == RestoreFirst(w, d, effect, choices, m - 1).results;
      assert results[..n] == results[..m - 1][..n];
    } else {
      assert results[..n] == results;
    }
  }

  lemma OneMoreEntry(w: World, d: Disk, effect: DeployEffect, choices: nat -> Choice, i: nat)
    requires i < |effect.writes|
    ensures var before := RestoreFirst(w, d, effect, choices, i);
      var a := EntryOf(w, Last(d, before.steps), effect, choices, i);
      RestoreFirst(w, d, effect, choices, i + 1) == Run(before.results + [a.result], before.steps + a.steps)
  {
  }

  /** Every entry is tried, in order, on the disk the entries before it left, whether or
      not they failed. */
  lemma EntryByEntry(w: World, d: Disk, effect: DeployEffect, choices: nat -> Choice, i: nat)
    requires i < |effect.writes|
    ensures var before, after := RestoreFirst(w, d, effect, choices, i), RestoreFirst(w, d, effect, choices, i + 1);
      var a := EntryOf(w, Last(d, before.steps), effect, choices, i);
      && RestoreFirst(w, d, effect, choices, |effect.writes|).results[i] == a.result
      && after.steps == before.steps + a.steps
  {
    OneMoreEntry(w, d, effect, choices, i);
    ResultsStay(w, d, effect, choices, i + 1, |effect.writes|);
    var results := RestoreFirst(w, d, effect, choices, |effect.writes|).results;
    assert results[i] == results[..i + 1][i];
  }

  /** A failing write may have written any part of the bytes. */
  lemma AnyPartIsWritten(bytes: Bytes, c: Choice, n: nat)
    requires n <= |bytes|
    ensures Written(bytes, c.(fault := Some(Fault(WriteTemp, n)))) == n
  {
  }
}
