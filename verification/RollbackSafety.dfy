/** What a rollback leaves on disk if it is stopped anywhere: every target holds what
    it held before, or all of a newest backup, and nothing else is touched. */
module RollbackSafety {
  import opened Wrappers
  import opened RollbackDisk
  import opened Rollback

  // ------------------------------------------------------------------
  // What may be restored
  // ------------------------------------------------------------------

  predicate HasEntry(d: Disk, p: Path) {
    p in d.files || p in d.dirs
  }

  // The name of a backup that no other matching backup is newer than.
  ghost predicate IsNewest(d: Disk, dir: Path, prefix: string, name: string) {
    && StartsWith(name, prefix)
    && HasEntry(d, dir + [name])
    && forall other :: StartsWith(other, prefix) && HasEntry(d, dir + [other]) ==>
         MtimeOf(d, dir + [other]) <= MtimeOf(d, dir + [name])
  }

  // The bytes a backup stands for: its own, or those its pointer refers to.
  function Content(w: World, d: Disk, backup: Path): Option<Bytes>
    requires backup != []
  {
    if backup !in d.files then None
    else if !IsPointer(Name(backup)) then Some(d.files[backup].bytes)
    else
      match w.parse(d.files[backup].bytes)
      case None => None
      case Some(sha256) =>
        if IsHash(sha256) && StorePath(w.store, sha256) in d.files then Some(d.files[StorePath(w.store, sha256)].bytes)
        else None
  }

  ghost predicate IsBackupOf(w: World, d: Disk, target: Path, bytes: Bytes) {
    target != [] && exists name ::
      IsNewest(d, BackupsDir(target), Name(target) + ".", name) && Content(w, d, BackupsDir(target) + [name]) == Some(bytes)
  }

  // ------------------------------------------------------------------
  // The invariant
  // ------------------------------------------------------------------

  predicate InBackups(p: Path) {
    |p| >= 2 && p[|p| - 2] == BACKUPS
  }

  function StoreRoot(w: World): Path {
    w.store + ["sha256"]
  }

  predicate InStore(w: World, p: Path) {
    StoreRoot(w) <= p
  }

  ghost predicate AllSynced(d: Disk) {
    forall p :: p in d.files ==> d.files[p].synced
  }

  ghost predicate DirsClosed(d: Disk) {
    forall p :: p in d.dirs && p != [] ==> Parent(p) in d.dirs
  }

  // The files a run may write, and its temporary ones.
  datatype Scope = Scope(targets: set<Path>, temps: set<Path>)

  ghost predicate ScopeIsClear(w: World, d0: Disk, s: Scope) {
    && s.temps !! s.targets && s.temps !! d0.files.Keys
    && (forall p :: p in s.targets || p in s.temps ==> !InBackups(p) && !InStore(w, p))
    && BACKUPS !in w.store
  }

  predicate SameAt(d0: Disk, d: Disk, p: Path) {
    (p in d.files <==> p in d0.files) && (p in d0.files ==> d.files[p] == d0.files[p])
  }

  ghost predicate FilesKept(d0: Disk, d: Disk, s: Scope) {
    && (forall p :: p in d0.files && p !in s.targets ==> p in d.files && d.files[p] == d0.files[p])
    && (forall p :: p in d.files ==> p in d0.files || p in s.targets || p in s.temps)
    && (forall p :: p in d.files ==> d.files[p].synced || p in s.temps || SameAt(d0, d, p))
  }

  ghost predicate DirsKept(w: World, d0: Disk, d: Disk) {
    && (forall p :: p in d0.dirs ==> p in d.dirs && d.dirs[p] == d0.dirs[p])
    && (forall p :: p in d.dirs ==> p in d0.dirs || p in Prefixes(StoreRoot(w)))
    && DirsClosed(d)
  }

  ghost predicate RestoredAt(w: World, d0: Disk, d: Disk, t: Path) {
    t in d.files && d.files[t].synced && IsBackupOf(w, d0, t, d.files[t].bytes)
  }

  ghost predicate TargetsHold(w: World, d0: Disk, d: Disk, s: Scope) {
    forall t :: t in s.targets ==> SameAt(d0, d, t) || RestoredAt(w, d0, d, t)
  }

  ghost predicate Inv(w: World, d0: Disk, d: Disk, s: Scope) {
    FilesKept(d0, d, s) && DirsKept(w, d0, d) && TargetsHold(w, d0, d, s)
  }

  lemma InvStarts(w: World, d0: Disk, s: Scope)
    requires DirsClosed(d0)
    ensures Inv(w, d0, d0, s)
  {
  }

  // ------------------------------------------------------------------
  // The backups and the store do not change under it
  // ------------------------------------------------------------------

  lemma StoreAncestorsAreNoBackups(w: World, p: Path)
    requires BACKUPS !in w.store
    ensures p in Prefixes(StoreRoot(w)) ==> !InBackups(p) && (p == [] || Name(p) != BACKUPS)
  {
    var root := StoreRoot(w);
    assert forall i :: 0 <= i < |w.store| ==> root[i] == w.store[i];
    if p in Prefixes(root) {
      assert p == root[..|p|];
    }
  }

  lemma BackupsAreUnchanged(w: World, d0: Disk, d: Disk, s: Scope, p: Path)
    requires ScopeIsClear(w, d0, s) && FilesKept(d0, d, s) && DirsKept(w, d0, d) && InBackups(p)
    ensures SameAt(d0, d, p) && MtimeOf(d, p) == MtimeOf(d0, p)
  {
    StoreAncestorsAreNoBackups(w, p);
  }

  lemma StoreIsUnchanged(w: World, d0: Disk, d: Disk, s: Scope, p: Path)
    requires ScopeIsClear(w, d0, s) && FilesKept(d0, d, s) && InStore(w, p)
    ensures SameAt(d0, d, p)
  {
  }

  // The order is that of all entries of the directory.
  ghost predicate IsListing(d: Disk, dir: Path, order: seq<string>) {
    forall name :: name in order <==> HasEntry(d, dir + [name])
  }

  lemma {:induction false} SameCandidates(w: World, d0: Disk, d: Disk, s: Scope, target: Path, prefix: string,
                                          order: seq<string>)
    requires ScopeIsClear(w, d0, s) && FilesKept(d0, d, s) && DirsKept(w, d0, d) && target != []
    ensures Candidates(d, BackupsDir(target), prefix, order) == Candidates(d0, BackupsDir(target), prefix, order)
    decreases |order|
  {
    if order != [] {
      var name := order[|order| - 1];
      SameCandidates(w, d0, d, s, target, prefix, order[..|order| - 1]);
      BackupsAreUnchanged(w, d0, d, s, BackupsDir(target) + [name]);
    }
  }

  ghost predicate IsCandidate(d: Disk, dir: Path, prefix: string, order: seq<string>, c: Candidate) {
    c.name in order && StartsWith(c.name, prefix) && c.mtime == MtimeOf(d, dir + [c.name])
  }

  lemma {:induction false} CandidatesAreTheMatches(d: Disk, dir: Path, prefix: string, order: seq<string>, c: Candidate)
    ensures c in Candidates(d, dir, prefix, order) <==> IsCandidate(d, dir, prefix, order, c)
    decreases |order|
  {
    if order != [] {
      var front, name := order[..|order| - 1], order[|order| - 1];
      CandidatesAreTheMatches(d, dir, prefix, front, c);
      assert order == front + [name];
    }
  }

  ghost predicate IsMax(c: Candidate, cs: seq<Candidate>) {
    c in cs && forall o :: o in cs ==> o.mtime <= c.mtime
  }

  lemma {:induction false} InsertedAreThose(c: Candidate, sorted: seq<Candidate>, x: Candidate)
    ensures x in InsertNewest(c, sorted) <==> x == c || x in sorted
    decreases |sorted|
  {
    if sorted != [] && sorted[0].mtime > c.mtime {
      InsertedAreThose(c, sorted[1..], x);
      assert sorted == [sorted[0]] + sorted[1..];
    }
  }

  lemma {:induction false} NewestComesFirst(cs: seq<Candidate>)
    requires cs != []
    ensures IsMax(NewestFirst(cs)[0], cs)
    decreases |cs|
  {
    var rest := cs[1..];
    assert cs == [cs[0]] + rest;
    if rest != [] {
      NewestComesFirst(rest);
    }
  }

  lemma FirstIsNewest(d: Disk, dir: Path, prefix: string, order: seq<string>)
    requires IsListing(d, dir, order) && Candidates(d, dir, prefix, order) != []
    ensures IsNewest(d, dir, prefix, NewestFirst(Candidates(d, dir, prefix, order))[0].name)
  {
    var cs := Candidates(d, dir, prefix, order);
    NewestComesFirst(cs);
    var best := NewestFirst(cs)[0];
    CandidatesAreTheMatches(d, dir, prefix, order, best);
    forall other | StartsWith(other, prefix) && HasEntry(d, dir + [other])
      ensures MtimeOf(d, dir + [other]) <= MtimeOf(d, dir + [best.name])
    {
      CandidatesAreTheMatches(d, dir, prefix, order, Candidate(MtimeOf(d, dir + [other]), other));
    }
  }

  // Whatever FindBackup picks is a newest backup of the disk the run started from.
  lemma FoundIsNewest(w: World, d0: Disk, d: Disk, s: Scope, target: Path, expected: string, c: Choice)
    requires ScopeIsClear(w, d0, s) && FilesKept(d0, d, s) && DirsKept(w, d0, d)
    requires target != [] ==> IsListing(d0, BackupsDir(target), c.order)
    requires var found := FindBackup(w, d, target, expected, c); found.Success? && found.value.Backup?
    ensures target != [] && Parent(target) in d.dirs
    ensures var backup := FindBackup(w, d, target, expected, c).value.path;
      |backup| >= 2 && InBackups(backup) && backup == BackupsDir(target) + [Name(backup)]
      && IsNewest(d0, BackupsDir(target), Name(target) + ".", Name(backup))
  {
    var dir, prefix := BackupsDir(target), Name(target) + ".";
    SameCandidates(w, d0, d, s, target, prefix, c.order);
    FirstIsNewest(d0, dir, prefix, c.order);
    assert Parent(dir) == Parent(target);
  }

  // ------------------------------------------------------------------
  // Every call keeps the invariant
  // ------------------------------------------------------------------

  ghost predicate AllInv(w: World, d0: Disk, steps: seq<Disk>, s: Scope) {
    forall i :: 0 <= i < |steps| ==> Inv(w, d0, steps[i], s)
  }

  lemma OpeningTheStoreKeepsInv(w: World, d0: Disk, d: Disk, s: Scope, now: int)
    requires Inv(w, d0, d, s)
    ensures Inv(w, d0, WithDirs(d, StoreRoot(w), now), s)
  {
    var d1 := WithDirs(d, StoreRoot(w), now);
    forall p | p in d1.dirs && p != [] ensures Parent(p) in d1.dirs {
      if p !in d.dirs {
        var k :| 0 <= k <= |StoreRoot(w)| && p == StoreRoot(w)[..k];
        assert Parent(p) == StoreRoot(w)[..k - 1];
      }
    }
    assert d1.files == d.files;
  }

  lemma TempFileKeepsInv(w: World, d0: Disk, d: Disk, s: Scope, temp: Path, f: File)
    requires Inv(w, d0, d, s) && ScopeIsClear(w, d0, s) && temp in s.temps
    ensures Inv(w, d0, WithFile(d, temp, f), s)
  {
    var d1 := WithFile(d, temp, f);
    forall t | t in s.targets ensures SameAt(d0, d1, t) || RestoredAt(w, d0, d1, t) {
      assert t != temp;
      assert SameAt(d0, d, t) || RestoredAt(w, d0, d, t);
    }
  }

  lemma RenameKeepsInv(w: World, d0: Disk, d: Disk, s: Scope, temp: Path, target: Path)
    requires Inv(w, d0, d, s) && ScopeIsClear(w, d0, s) && temp in s.temps && target in s.targets
    requires temp in d.files && d.files[temp].synced && IsBackupOf(w, d0, target, d.files[temp].bytes)
    ensures Inv(w, d0, Renamed(d, temp, target), s)
  {
    var d1 := Renamed(d, temp, target);
    forall t | t in s.targets ensures SameAt(d0, d1, t) || RestoredAt(w, d0, d1, t) {
      assert t != temp;
      assert SameAt(d0, d, t) || RestoredAt(w, d0, d, t);
      assert t == target ==> RestoredAt(w, d0, d1, t);
    }
  }

  // The states of ReplaceByRename, one by one.
  lemma ReplaceSteps(d: Disk, target: Path, bytes: Bytes, c: Choice, holds: Disk -> bool)
    requires target != []
    requires var temp := TempPath(target, c.tag);
      var created := WithFile(d, temp, File([], false, Some(c.now)));
      var part := WithFile(created, temp, File(bytes[..Written(bytes, c)], false, Some(c.now)));
      var written := WithFile(created, temp, File(bytes, false, Some(c.now)));
      var synced := WithFile(written, temp, File(bytes, true, Some(c.now)));
      holds(created) && holds(part) && holds(written) && holds(synced) && holds(Renamed(synced, temp, target))
    ensures var steps := ReplaceByRename(d, target, bytes, c).steps;
      forall i :: 0 <= i < |steps| ==> holds(steps[i])
  {
  }

  lemma ReplaceKeepsInv(w: World, d0: Disk, d: Disk, s: Scope, target: Path, bytes: Bytes, c: Choice)
    requires Inv(w, d0, d, s) && ScopeIsClear(w, d0, s) && target in s.targets && target != []
    requires TempPath(target, c.tag) in s.temps && IsBackupOf(w, d0, target, bytes)
    ensures AllInv(w, d0, ReplaceByRename(d, target, bytes, c).steps, s)
  {
    var temp := TempPath(target, c.tag);
    var f0 := File([], false, Some(c.now));
    var f1 := File(bytes[..Written(bytes, c)], false, Some(c.now));
    var f2 := File(bytes, false, Some(c.now));
    var f3 := File(bytes, true, Some(c.now));
    TempFileKeepsInv(w, d0, d, s, temp, f0);
    var created := WithFile(d, temp, f0);
    TempFileKeepsInv(w, d0, created, s, temp, f1);
    TempFileKeepsInv(w, d0, created, s, temp, f2);
    var written := WithFile(created, temp, f2);
    TempFileKeepsInv(w, d0, written, s, temp, f3);
    RenameKeepsInv(w, d0, WithFile(written, temp, f3), s, temp, target);
    ReplaceSteps(d, target, bytes, c, x => Inv(w, d0, x, s));
  }

  lemma LoadKeepsInv(w: World, d0: Disk, d: Disk, s: Scope, backup: Path, c: Choice)
    requires Inv(w, d0, d, s) && backup != []
    ensures AllInv(w, d0, Load(w, d, backup, c).steps, s)
    ensures Inv(w, d0, Last(d, Load(w, d, backup, c).steps), s)
    ensures d.dirs.Keys <= Last(d, Load(w, d, backup, c).steps).dirs.Keys
  {
    OpeningTheStoreKeepsInv(w, d0, d, s, c.now);
  }

  lemma StorePathIsInStore(w: World, sha256: string)
    requires |sha256| == 64
    ensures InStore(w, StorePath(w.store, sha256))
  {
    var p := StorePath(w.store, sha256);
    assert p[..|w.store| + 1] == StoreRoot(w);
  }

  lemma LoadedIsContent(w: World, d0: Disk, d: Disk, s: Scope, backup: Path, c: Choice)
    requires Inv(w, d0, d, s) && ScopeIsClear(w, d0, s) && backup != [] && InBackups(backup)
    requires Load(w, d, backup, c).result.Success?
    ensures Content(w, d0, backup) == Some(Load(w, d, backup, c).result.value)
  {
    BackupsAreUnchanged(w, d0, d, s, backup);
    if IsPointer(Name(backup)) {
      var sha256 := w.parse(d.files[backup].bytes).value;
      StorePathIsInStore(w, sha256);
      StoreIsUnchanged(w, d0, d, s, StorePath(w.store, sha256));
    }
  }

  /** One entry, restored from a state that keeps the invariant, keeps it at every
      step. */
  lemma RestoreKeepsInv(w: World, d0: Disk, d: Disk, s: Scope, target: Path, expected: string, c: Choice)
    requires Inv(w, d0, d, s) && ScopeIsClear(w, d0, s) && target in s.targets
    requires target != [] ==> TempPath(target, c.tag) in s.temps && IsListing(d0, BackupsDir(target), c.order)
    ensures AllInv(w, d0, Restore(w, d, target, expected, c).steps, s)
    ensures Inv(w, d0, Last(d, Restore(w, d, target, expected, c).steps), s)
  {
    var found := FindBackup(w, d, target, expected, c);
    if found.Success? && found.value.Backup? {
      var backup := found.value.path;
      FoundIsNewest(w, d0, d, s, target, expected, c);
      LoadKeepsInv(w, d0, d, s, backup, c);
      var loaded := Load(w, d, backup, c);
      if loaded.result.Success? {
        LoadedIsContent(w, d0, d, s, backup, c);
        ReplaceKeepsInv(w, d0, Last(d, loaded.steps), s, target, loaded.result.value, c);
      }
    }
  }

  // ------------------------------------------------------------------
  // Whole runs
  // ------------------------------------------------------------------

  ghost function ScopeOf(effect: DeployEffect, choices: nat -> Choice): Scope {
    Scope(set i | 0 <= i < |effect.writes| :: TargetOf(effect, i),
          set i | 0 <= i < |effect.writes| && TargetOf(effect, i) != [] :: TempPath(TargetOf(effect, i), choices(i).tag))
  }

  // What a caller can check of one entry before the run: the target is neither a
  // backup nor in the store, and the temporary name is not taken.
  ghost predicate EntryIsClear(w: World, d0: Disk, effect: DeployEffect, choices: nat -> Choice, i: nat)
    requires i < |effect.writes|
  {
    var target := TargetOf(effect, i);
    && !InBackups(target) && !InStore(w, target)
    && (target != [] ==>
          && TempPath(target, choices(i).tag) !in d0.files
          && TempPath(target, choices(i).tag) !in ScopeOf(effect, choices).targets
          && IsListing(d0, BackupsDir(target), choices(i).order))
  }

  ghost predicate SafeStart(w: World, d0: Disk, effect: DeployEffect, choices: nat -> Choice) {
    && DirsClosed(d0) && BACKUPS !in w.store
    && forall i :: 0 <= i < |effect.writes| ==> EntryIsClear(w, d0, effect, choices, i)
  }

  lemma TempIsOutside(w: World, target: Path, tag: string)
    requires target != []
    ensures InBackups(TempPath(target, tag)) <==> InBackups(target)
    ensures InStore(w, TempPath(target, tag)) ==> InStore(w, target)
    ensures TempPath(target, tag) != target
  {
    var temp := TempPath(target, tag);
    assert temp[|temp| - 1][0] == '.' && |temp[|temp| - 1]| > |Name(target)|;
    assert |temp| == |target| && forall i :: 0 <= i < |temp| - 1 ==> temp[i] == target[i];
    if InStore(w, temp) {
      assert StoreRoot(w)[|w.store|] == "sha256";
      assert temp[|w.store|] == "sha256";
      assert |w.store| < |temp| - 1;
      assert StoreRoot(w) == target[..|StoreRoot(w)|];
    }
  }

  lemma ScopeOfSafeStart(w: World, d0: Disk, effect: DeployEffect, choices: nat -> Choice)
    requires SafeStart(w, d0, effect, choices)
    ensures ScopeIsClear(w, d0, ScopeOf(effect, choices))
  {
    var s := ScopeOf(effect, choices);
    forall p | p in s.temps ensures !InBackups(p) && !InStore(w, p) && p !in s.targets && p !in d0.files {
      var i :| 0 <= i < |effect.writes| && TargetOf(effect, i) != [] && p == TempPath(TargetOf(effect, i), choices(i).tag);
      assert EntryIsClear(w, d0, effect, choices, i);
      TempIsOutside(w, TargetOf(effect, i), choices(i).tag);
    }
    forall p | p in s.targets ensures !InBackups(p) && !InStore(w, p) {
      var i :| 0 <= i < |effect.writes| && p == TargetOf(effect, i);
      assert EntryIsClear(w, d0, effect, choices, i);
    }
  }

  lemma {:induction false} RunKeepsInv(w: World, d0: Disk, effect: DeployEffect, choices: nat -> Choice, n: nat)
    requires SafeStart(w, d0, effect, choices) && n <= |effect.writes|
    ensures AllInv(w, d0, RestoreFirst(w, d0, effect, choices, n).steps, ScopeOf(effect, choices))
    ensures Inv(w, d0, Last(d0, RestoreFirst(w, d0, effect, choices, n).steps), ScopeOf(effect, choices))
  {
    var s := ScopeOf(effect, choices);
    if n == 0 {
      InvStarts(w, d0, s);
    } else {
      RunKeepsInv(w, d0, effect, choices, n - 1);
      ScopeOfSafeStart(w, d0, effect, choices);
      var before := RestoreFirst(w, d0, effect, choices, n - 1).steps;
      var d, target := Last(d0, before), TargetOf(effect, n - 1);
      assert EntryIsClear(w, d0, effect, choices, n - 1);
      RestoreKeepsInv(w, d0, d, s, target, effect.writes[n - 1].expectedSha256, choices(n - 1));
      var more := Restore(w, d, target, effect.writes[n - 1].expectedSha256, choices(n - 1)).steps;
      AllOfBoth(before, more, x => Inv(w, d0, x, s));
      Continues(d0, [], before, more);
    }
  }

  lemma AllOfBoth(a: seq<Disk>, b: seq<Disk>, holds: Disk -> bool)
    requires forall i :: 0 <= i < |a| ==> holds(a[i])
    requires forall i :: 0 <= i < |b| ==> holds(b[i])
    ensures forall i :: 0 <= i < |a + b| ==> holds((a + b)[i])
  {
  }

  // ------------------------------------------------------------------
  // Crashes
  // ------------------------------------------------------------------

  predicate SameBytesAt(d0: Disk, image: Disk, p: Path) {
    (p in image.files <==> p in d0.files) && (p in d0.files ==> image.files[p].bytes == d0.files[p].bytes)
  }

  /** Wherever the run is stopped, and whatever then happens to bytes that were not
      synced: every target holds what it held before the run or all the bytes of a
      newest backup; every other file is as it was, in particular every backup and
      everything in the store; and the only new files are temporary ones. */
  lemma CrashSafety(w: World, d0: Disk, effect: DeployEffect, choices: nat -> Choice, state: Disk, image: Disk)
    requires SafeStart(w, d0, effect, choices) && AllSynced(d0)
    requires state == d0 || state in RestoreFirst(w, d0, effect, choices, |effect.writes|).steps
    requires Crashed(state, image)
    ensures forall i :: 0 <= i < |effect.writes| ==>
              var t := TargetOf(effect, i);
              SameBytesAt(d0, image, t) || (t in image.files && IsBackupOf(w, d0, t, image.files[t].bytes))
    ensures forall p :: p !in ScopeOf(effect, choices).targets && p !in ScopeOf(effect, choices).temps ==>
              SameBytesAt(d0, image, p)
    ensures forall p :: InBackups(p) || InStore(w, p) ==> SameBytesAt(d0, image, p)
  {
    var s := ScopeOf(effect, choices);
    var steps := RestoreFirst(w, d0, effect, choices, |effect.writes|).steps;
    RunKeepsInv(w, d0, effect, choices, |effect.writes|);
    InvStarts(w, d0, s);
    ScopeOfSafeStart(w, d0, effect, choices);
    assert Inv(w, d0, state, s);
    forall i | 0 <= i < |effect.writes|
      ensures var t := TargetOf(effect, i);
        SameBytesAt(d0, image, t) || (t in image.files && IsBackupOf(w, d0, t, image.files[t].bytes))
    {
      var t := TargetOf(effect, i);
      assert t in s.targets;
      assert SameAt(d0, state, t) || RestoredAt(w, d0, state, t);
    }
  }
}
