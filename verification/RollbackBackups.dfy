/** Whose backups a rollback takes.  A deployment names a backup after its file, a
    timestamp and a random part; a rollback takes what begins with the target's name
    and a dot, which other files' backups may do too. */
module RollbackBackups {
  import opened Wrappers
  import opened RollbackDisk
  import opened Rollback
  import opened RollbackSafety

  // A backup as a deployment makes it: literal bytes, or a pointer into the store.
  datatype Made = Made(file: string, ts: string, rand: string, pointer: bool)

  ghost predicate IsMade(m: Made) {
    '.' !in m.ts && '.' !in m.rand
  }

  function Ending(m: Made): string {
    if m.pointer then m.rand + ".json" else m.rand
  }

  function BackupName(m: Made): string {
    m.file + ("." + (m.ts + ("." + Ending(m))))
  }

  // A file whose own name is that of another file with the stamp of its backup.
  predicate IsStampedCopy(name: string, m: Made) {
    name == m.file + ("." + m.ts) || (m.pointer && name == m.file + ("." + (m.ts + ("." + m.rand))))
  }

  predicate Takes(name: string, m: Made) {
    StartsWith(BackupName(m), name + ".")
  }

  // ------------------------------------------------------------------
  // Prefixes that end in a dot
  // ------------------------------------------------------------------

  lemma PrefixAt(p: string, s: string)
    ensures p <= s <==> |p| <= |s| && s[..|p|] == p
  {
  }

  // The prefix ends inside f, just after it, or beyond.
  lemma DotPrefix(p: string, f: string, tail: string)
    ensures p + "." <= f + ("." + tail) <==>
              || p + "." <= f
              || p == f
              || (f + "." <= p && p[|f| + 1..] + "." <= tail)
  {
    var q, s := p + ".", f + ("." + tail);
    PrefixAt(q, s);
    PrefixAt(q, f);
    PrefixAt(f + ".", p);
    if |p| > |f| {
      var rest := p[|f| + 1..];
      PrefixAt(rest + ".", tail);
      assert p == p[..|f| + 1] + rest;
      assert q == p[..|f| + 1] + (rest + ".") && s == (f + ".") + tail;
      assert q <= s <==> p[..|f| + 1] == f + "." && rest + "." <= tail by {
        if q <= s {
          assert s[..|q|][..|f| + 1] == p[..|f| + 1];
          assert s[|f| + 1..] == tail && s[..|q|][|f| + 1..] == rest + ".";
        }
      }
    } else if |p| < |f| {
      assert s[..|q|] == f[..|q|];
    } else {
      assert s[..|q|] == f + ".";
      assert q[..|p|] == p && (f + ".")[..|p|] == f;
    }
  }

  lemma NoDotNoPrefix(p: string, s: string)
    requires '.' !in s
    ensures !(p + "." <= s)
  {
    assert (p + ".")[|p|] == '.';
  }

  lemma AfterStamp(r: string, m: Made)
    requires IsMade(m)
    ensures r + "." <= m.ts + ("." + Ending(m)) <==> r == m.ts || (m.pointer && r == m.ts + ("." + m.rand))
  {
    DotPrefix(r, m.ts, Ending(m));
    NoDotNoPrefix(r, m.ts);
    if m.ts + "." <= r {
      var x := r[|m.ts| + 1..];
      assert r == (m.ts + ".") + x;
      if m.pointer {
        assert Ending(m) == m.rand + ("." + "json");
        DotPrefix(x, m.rand, "json");
        NoDotNoPrefix(x, m.rand);
        if m.rand + "." <= x {
          NoDotNoPrefix(x[|m.rand| + 1..], "json");
        }
        assert r == m.ts + ("." + x);
      } else {
        NoDotNoPrefix(x, m.rand);
      }
    }
    if m.pointer && r == m.ts + ("." + m.rand) {
      assert r == (m.ts + ".") + m.rand && r[|m.ts| + 1..] == m.rand;
    }
  }

  /** A rollback of a file takes a backup exactly when the backup is the file's own, or
      that of a file whose name extends its name and a dot, or its name is that of the
      other file with the backup's stamp. */
  lemma TakesExactly(name: string, m: Made)
    requires IsMade(m)
    ensures Takes(name, m) <==> m.file == name || name + "." <= m.file || IsStampedCopy(name, m)
  {
    DotPrefix(name, m.file, m.ts + ("." + Ending(m)));
    if m.file + "." <= name {
      var r := name[|m.file| + 1..];
      assert name == (m.file + ".") + r && name == m.file + ("." + r);
      AfterStamp(r, m);
    }
    if IsStampedCopy(name, m) {
      var r := if name == m.file + ("." + m.ts) then m.ts else m.ts + ("." + m.rand);
      assert name == m.file + ("." + r) && name == (m.file + ".") + r && name[|m.file| + 1..] == r;
      AfterStamp(r, m);
    }
  }

  // ------------------------------------------------------------------
  // Which backup is picked
  // ------------------------------------------------------------------

  // What stands in a backup directory: backups a deployment has made, under their
  // names and nothing else.
  ghost predicate HoldsJust(d: Disk, dir: Path, made: set<Made>) {
    && (forall m :: m in made ==> IsMade(m) && HasEntry(d, dir + [BackupName(m)]))
    && (forall name :: HasEntry(d, dir + [name]) ==> exists m :: m in made && BackupName(m) == name)
  }

  // No other file with a backup here has a name that extends the target's name and a
  // dot, or whose stamped copy the target's name is.
  ghost predicate NoneInTheWay(name: string, made: set<Made>) {
    forall m :: m in made && m.file != name ==> !(name + "." <= m.file) && !IsStampedCopy(name, m)
  }

  /** The target's name matches only its own backups exactly when no other file with a
      backup beside it is in the way. */
  lemma OnlyOwnBackupsExactly(name: string, made: set<Made>)
    requires forall m :: m in made ==> IsMade(m)
    ensures (forall m :: m in made && Takes(name, m) ==> m.file == name) <==> NoneInTheWay(name, made)
  {
    forall m | m in made ensures Takes(name, m) <==> m.file == name || name + "." <= m.file || IsStampedCopy(name, m) {
      TakesExactly(name, m);
    }
  }

  // The rollback needs a backup, and finds one in a complete listing.
  ghost predicate Picks(w: World, d: Disk, target: Path, expected: string, c: Choice, name: string)
    requires target != []
  {
    && IsListing(d, BackupsDir(target), c.order)
    && FindBackup(w, d, target, expected, c) == Success(Backup(BackupsDir(target) + [name]))
  }

  lemma PickedIsNewest(w: World, d: Disk, target: Path, expected: string, c: Choice, name: string)
    requires target != [] && Picks(w, d, target, expected, c, name)
    ensures IsNewest(d, BackupsDir(target), Name(target) + ".", name)
  {
    var dir, prefix := BackupsDir(target), Name(target) + ".";
    FirstIsNewest(d, dir, prefix, c.order);
    var first := NewestFirst(Candidates(d, dir, prefix, c.order))[0].name;
    assert (dir + [first])[|dir|] == (dir + [name])[|dir|];
  }

  // Whoever could have made the backup, it was for the target.
  ghost predicate IsOwn(target: Path, made: set<Made>, name: string)
    requires target != []
  {
    forall m :: m in made && BackupName(m) == name ==> m.file == Name(target)
  }

  /** If none is in the way, a backup that a rollback picks was made for its target; */
  lemma PickedBackupIsOwn(w: World, d: Disk, target: Path, expected: string, c: Choice, made: set<Made>, name: string)
    requires target != [] && HoldsJust(d, BackupsDir(target), made) && NoneInTheWay(Name(target), made)
    requires Picks(w, d, target, expected, c, name)
    ensures IsOwn(target, made, name) && exists m :: m in made && BackupName(m) == name
  {
    PickedIsNewest(w, d, target, expected, c, name);
    OnlyOwnBackupsExactly(Name(target), made);
    forall m | m in made && BackupName(m) == name ensures m.file == Name(target) {
      assert Takes(Name(target), m);
    }
  }

  /** and if one is in the way and its backup is newer than all others that match, a
      rollback that needs a backup picks it, although it was made for another file. */
  lemma ForeignBackupIsPicked(w: World, d: Disk, target: Path, expected: string, c: Choice, m: Made, name: string)
    requires target != [] && IsMade(m) && Picks(w, d, target, expected, c, name)
    requires m.file != Name(target) && (Name(target) + "." <= m.file || IsStampedCopy(Name(target), m))
    requires HasEntry(d, BackupsDir(target) + [BackupName(m)])
    requires forall other :: StartsWith(other, Name(target) + ".") && HasEntry(d, BackupsDir(target) + [other])
                             && other != BackupName(m) ==>
               MtimeOf(d, BackupsDir(target) + [other]) < MtimeOf(d, BackupsDir(target) + [BackupName(m)])
    ensures name == BackupName(m)
  {
    PickedIsNewest(w, d, target, expected, c, name);
    TakesExactly(Name(target), m);
  }

  // ------------------------------------------------------------------
  // Whatever the modification times
  // ------------------------------------------------------------------

  // However old the backups are, and however they are listed, the one picked is the
  // target's own.
  ghost predicate OwnIsAlwaysPicked(w: World, target: Path, expected: string, made: set<Made>)
    requires target != []
  {
    forall d, c, name ::
      DirsClosed(d) && HoldsJust(d, BackupsDir(target), made) && Picks(w, d, target, expected, c, name) ==>
      IsOwn(target, made, name)
  }

  function PathsOf(dir: Path, made: set<Made>): set<Path> {
    set m | m in made :: dir + [BackupName(m)]
  }

  // A disk with those backups, of which one is new and all others are old.
  function DiskWith(dir: Path, made: set<Made>, newest: Made): Disk {
    Disk(map p | p in Prefixes(dir) :: None,
         map p | p in PathsOf(dir, made) ::
           File([], true, Some(if p == dir + [BackupName(newest)] then 1 else 0)))
  }

  lemma SameEntry(dir: Path, a: string, b: string)
    ensures dir + [a] == dir + [b] <==> a == b
    ensures dir + [a] != dir
  {
    assert (dir + [a])[|dir|] == a && (dir + [b])[|dir|] == b;
  }

  lemma DiskWithHolds(dir: Path, made: set<Made>, newest: Made)
    requires newest in made && forall m :: m in made ==> IsMade(m)
    ensures DirsClosed(DiskWith(dir, made, newest)) && HoldsJust(DiskWith(dir, made, newest), dir, made)
    ensures dir in DiskWith(dir, made, newest).dirs
    ensures forall p :: p in DiskWith(dir, made, newest).files ==> |p| == |dir| + 1
    ensures forall name :: HasEntry(DiskWith(dir, made, newest), dir + [name]) ==>
              MtimeOf(DiskWith(dir, made, newest), dir + [name]) == if name == BackupName(newest) then 1 else 0
  {
    var d := DiskWith(dir, made, newest);
    assert dir == dir[..|dir|];
    forall p | p in d.dirs && p != [] ensures Parent(p) in d.dirs {
      assert Parent(p) == dir[..|p| - 1];
    }
    forall m | m in made ensures HasEntry(d, dir + [BackupName(m)]) {
      assert dir + [BackupName(m)] in d.files;
    }
    forall name | HasEntry(d, dir + [name])
      ensures exists m :: m in made && BackupName(m) == name
      ensures MtimeOf(d, dir + [name]) == if name == BackupName(newest) then 1 else 0
    {
      SameEntry(dir, name, BackupName(newest));
      var m :| m in made && dir + [name] == dir + [BackupName(m)];
      SameEntry(dir, name, BackupName(m));
    }
  }

  lemma {:induction false} Listed(names: set<string>) returns (order: seq<string>)
    ensures forall name :: name in order <==> name in names
    decreases |names|
  {
    if names == {} {
      order := [];
    } else {
      var name :| name in names;
      var rest := Listed(names - {name});
      order := [name] + rest;
    }
  }

  // A listing that shows a match is picked from.
  lemma PicksFirst(w: World, d: Disk, target: Path, expected: string, c: Choice, shown: Candidate)
    returns (name: string)
    requires HasFileName(target) && target !in d.files && BackupsDir(target) in d.dirs && c.fault.None?
    requires IsListing(d, BackupsDir(target), c.order)
    requires IsCandidate(d, BackupsDir(target), Name(target) + ".", c.order, shown)
    ensures Picks(w, d, target, expected, c, name)
  {
    var dir, prefix := BackupsDir(target), Name(target) + ".";
    CandidatesAreTheMatches(d, dir, prefix, c.order, shown);
    name := NewestFirst(Candidates(d, dir, prefix, c.order))[0].name;
  }

  // On that disk a backup that is in the way is picked.
  lemma NewestIsPicked(w: World, target: Path, expected: string, made: set<Made>, m: Made)
    returns (d: Disk, c: Choice)
    requires HasFileName(target) && m in made && forall m' :: m' in made ==> IsMade(m')
    requires m.file != Name(target) && (Name(target) + "." <= m.file || IsStampedCopy(Name(target), m))
    ensures DirsClosed(d) && HoldsJust(d, BackupsDir(target), made)
    ensures Picks(w, d, target, expected, c, BackupName(m))
  {
    var dir, prefix := BackupsDir(target), Name(target) + ".";
    d := DiskWith(dir, made, m);
    DiskWithHolds(dir, made, m);
    var order := Listed(set o | o in made :: BackupName(o));
    c := Choice(order, "", 0, None);
    TakesExactly(Name(target), m);
    assert HasEntry(d, dir + [BackupName(m)]);
    assert target !in d.files;
    var name := PicksFirst(w, d, target, expected, c, Candidate(1, BackupName(m)));
    ForeignBackupIsPicked(w, d, target, expected, c, m, name);
  }

  /** A rollback picks only the target's own backups, whatever their times, exactly when
      none of another file is in the way. */
  lemma OwnIsPickedExactly(w: World, target: Path, expected: string, made: set<Made>)
    requires HasFileName(target) && forall m :: m in made ==> IsMade(m)
    ensures OwnIsAlwaysPicked(w, target, expected, made) <==> NoneInTheWay(Name(target), made)
  {
    if NoneInTheWay(Name(target), made) {
      forall d, c, name | DirsClosed(d) && HoldsJust(d, BackupsDir(target), made) && Picks(w, d, target, expected, c, name)
        ensures IsOwn(target, made, name)
      {
        PickedBackupIsOwn(w, d, target, expected, c, made, name);
      }
    } else {
      var m :| m in made && m.file != Name(target) && (Name(target) + "." <= m.file || IsStampedCopy(Name(target), m));
      var d, c := NewestIsPicked(w, target, expected, made, m);
      assert !IsOwn(target, made, BackupName(m));
    }
  }
}
