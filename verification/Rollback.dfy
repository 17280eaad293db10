/** The rollback of a deployment: for every file the deployment wrote, put back the
    newest backup unless the file is still what was deployed, then mark the operation
    as rolled back. */
module Rollback {
  import opened Wrappers
  import opened RollbackDisk
  import opened Texts

  datatype Stage = ReadTarget | ListBackups | ListEntry | ReadBackup | OpenStore | ReadStore
                 | CreateDirs | CreateTemp | WriteTemp | SyncTemp | RenameTemp

  // Why an entry could not be restored.
  datatype Reason = Io(stage: Stage) | NoFileName | NoBackupsDir | NoBackup | BadPointer | BadHash
                  | StoreMissing(sha256: string)

  datatype Outcome = Restored | KeptCurrent

  // What is taken from outside: the hash, the parser of backup pointers (which gives
  // the hash a pointer refers to), and where the content store is.
  datatype World = World(hash: Bytes -> string, parse: Bytes -> Option<string>, store: Path)

  // A call that fails, and how many bytes a failing write has written.
  datatype Fault = Fault(stage: Stage, written: nat)

  // What the environment decides while one entry is restored: the order in which the
  // backups are listed, the unique part of the temporary name, the time, a fault.
  datatype Choice = Choice(order: seq<string>, tag: string, now: int, fault: Option<Fault>)

  predicate Fails(c: Choice, stage: Stage) {
    c.fault.Some? && c.fault.value.stage == stage
  }

  // ------------------------------------------------------------------
  // Finding the backup
  // ------------------------------------------------------------------

  const BACKUPS := ".backups"

  predicate HasFileName(target: Path) {
    target != [] && Name(target) != ".."
  }

  function BackupsDir(target: Path): Path
    requires target != []
  {
    Parent(target) + [BACKUPS]
  }

  datatype Candidate = Candidate(mtime: int, name: string)

  predicate StartsWith(s: string, prefix: string) {
    prefix <= s
  }

  // The modification time of an entry; the epoch where it cannot be read.
  function MtimeOf(d: Disk, p: Path): int {
    var mtime := if p in d.files then d.files[p].mtime else if p in d.dirs then d.dirs[p] else None;
    if mtime.Some? then mtime.value else 0
  }

  function Candidates(d: Disk, dir: Path, prefix: string, order: seq<string>): seq<Candidate> {
    if order == [] then []
    else
      var rest := Candidates(d, dir, prefix, order[..|order| - 1]);
      var name := order[|order| - 1];
      if StartsWith(name, prefix) then rest + [Candidate(MtimeOf(d, dir + [name]), name)] else rest
  }

  // A stable sort, newest first.
  function InsertNewest(c: Candidate, sorted: seq<Candidate>): (r: seq<Candidate>)
    ensures |r| == |sorted| + 1
  {
    if sorted == [] || sorted[0].mtime <= c.mtime then [c] + sorted
    else [sorted[0]] + InsertNewest(c, sorted[1..])
  }

  function NewestFirst(cs: seq<Candidate>): (sorted: seq<Candidate>)
    ensures |sorted| == |cs|
  {
    if cs == [] then [] else InsertNewest(cs[0], NewestFirst(cs[1..]))
  }

  // Either the target is still as deployed, or the backup to use.
  datatype Found = Current | Backup(path: Path)

  function FindBackup(w: World, d: Disk, target: Path, expected: string, c: Choice): Result<Found, Reason> {
    if target in d.files && Fails(c, ReadTarget) then Failure(Io(ReadTarget))
    else if target in d.files && w.hash(d.files[target].bytes) == expected then Success(Current)
    else if !HasFileName(target) then Failure(NoFileName)
    else if BackupsDir(target) !in d.dirs then Failure(NoBackupsDir)
    else if Fails(c, ListBackups) then Failure(Io(ListBackups))
    else if Fails(c, ListEntry) then Failure(Io(ListEntry))
    else
      var candidates := Candidates(d, BackupsDir(target), Name(target) + ".", c.order);
      if candidates == [] then Failure(NoBackup)
      else Success(Backup(BackupsDir(target) + [NewestFirst(candidates)[0].name]))
  }

  // ------------------------------------------------------------------
  // Reading it
  // ------------------------------------------------------------------

  predicate IsPointer(name: string) {
    |name| >= 5 && name[|name| - 5..] == ".json"
  }

  predicate IsHash(s: string) {
    |s| == 64 && forall i :: 0 <= i < |s| ==> IsHexDigit(s[i])
  }

  function StorePath(store: Path, sha256: string): Path
    requires |sha256| == 64
  {
    store + ["sha256", sha256[..2], sha256[2..4], sha256]
  }

  // The changes made on the way, and how it ended.
  datatype Attempt<T> = Attempt(result: Result<T, Reason>, steps: seq<Disk>)

  function ReadFromStore(w: World, d: Disk, sha256: string, c: Choice): Result<Bytes, Reason> {
    if !IsHash(sha256) then Failure(BadHash)
    else if Fails(c, ReadStore) || StorePath(w.store, sha256) in d.dirs then Failure(Io(ReadStore))
    else if StorePath(w.store, sha256) in d.files then Success(d.files[StorePath(w.store, sha256)].bytes)
    else Failure(StoreMissing(sha256))
  }

  // Opening the content store creates its directory.
  function Load(w: World, d: Disk, backup: Path, c: Choice): Attempt<Bytes>
    requires backup != []
  {
    if backup !in d.files || Fails(c, ReadBackup) then Attempt(Failure(Io(ReadBackup)), [])
    else if !IsPointer(Name(backup)) then Attempt(Success(d.files[backup].bytes), [])
    else
      match w.parse(d.files[backup].bytes)
      case None => Attempt(Failure(BadPointer), [])
      case Some(sha256) =>
        if Fails(c, OpenStore) || BlockedByFile(d, w.store + ["sha256"]) then Attempt(Failure(Io(OpenStore)), [])
        else
          var d1 := WithDirs(d, w.store + ["sha256"], c.now);
          Attempt(ReadFromStore(w, d1, sha256, c), [d1])
  }

  // ------------------------------------------------------------------
  // Putting it back
  // ------------------------------------------------------------------

  function TempPath(target: Path, tag: string): Path
    requires target != []
  {
    Parent(target) + ["." + Name(target) + ".rollback-tmp." + tag]
  }

  function Written(bytes: Bytes, c: Choice): nat {
    if c.fault.Some? && c.fault.value.written <= |bytes| then c.fault.value.written else |bytes|
  }

  // Write a temporary file beside the target, sync it, rename it over the target.
  function ReplaceByRename(d: Disk, target: Path, bytes: Bytes, c: Choice): Attempt<Outcome>
    requires target != []
  {
    var temp := TempPath(target, c.tag);
    if Fails(c, CreateTemp) || temp in d.dirs then Attempt(Failure(Io(CreateTemp)), [])
    else
      var created := WithFile(d, temp, File([], false, Some(c.now)));
      if Fails(c, WriteTemp) then
        Attempt(Failure(Io(WriteTemp)),
                [created, WithFile(created, temp, File(bytes[..Written(bytes, c)], false, Some(c.now)))])
      else
        var written := WithFile(created, temp, File(bytes, false, Some(c.now)));
        if Fails(c, SyncTemp) then Attempt(Failure(Io(SyncTemp)), [created, written])
        else
          var synced := WithFile(written, temp, File(bytes, true, Some(c.now)));
          if Fails(c, RenameTemp) || target in d.dirs then
            Attempt(Failure(Io(RenameTemp)), [created, written, synced])
          else Attempt(Success(Restored), [created, written, synced, Renamed(synced, temp, target)])
  }

  function Replace(d: Disk, target: Path, bytes: Bytes, c: Choice): Attempt<Outcome>
    requires target != []
  {
    if Parent(target) in d.dirs then ReplaceByRename(d, target, bytes, c)
    else if Fails(c, CreateDirs) || BlockedByFile(d, Parent(target)) then Attempt(Failure(Io(CreateDirs)), [])
    else
      var d1 := WithDirs(d, Parent(target), c.now);
      var a := ReplaceByRename(d1, target, bytes, c);
      Attempt(a.result, [d1] + a.steps)
  }

  // ------------------------------------------------------------------
  // One entry, and all of them
  // ------------------------------------------------------------------

  function Restore(w: World, d: Disk, target: Path, expected: string, c: Choice): Attempt<Outcome> {
    match FindBackup(w, d, target, expected, c)
    case Failure(reason) => Attempt(Failure(reason), [])
    case Success(Current) => Attempt(Success(KeptCurrent), [])
    case Success(Backup(backup)) =>
      var loaded := Load(w, d, backup, c);
      match loaded.result
      case Failure(reason) => Attempt(Failure(reason), loaded.steps)
      case Success(bytes) =>
        var replaced := Replace(Last(d, loaded.steps), target, bytes, c);
        Attempt(replaced.result, loaded.steps + replaced.steps)
  }

  datatype DeployWrite = DeployWrite(relative: Path, expectedSha256: string)

  datatype DeployEffect = DeployEffect(target: Path, writes: seq<DeployWrite>)

  function TargetOf(effect: DeployEffect, i: nat): Path
    requires i < |effect.writes|
  {
    effect.target + effect.writes[i].relative
  }

  datatype Run = Run(results: seq<Result<Outcome, Reason>>, steps: seq<Disk>)

  // The first n entries, in order.
  function RestoreFirst(w: World, d: Disk, effect: DeployEffect, choices: nat -> Choice, n: nat): (r: Run)
    requires n <= |effect.writes|
    ensures |r.results| == n
  {
    if n == 0 then Run([], [])
    else
      var before := RestoreFirst(w, d, effect, choices, n - 1);
      var expected := effect.writes[n - 1].expectedSha256;
      var a := Restore(w, Last(d, before.steps), TargetOf(effect, n - 1), expected, choices(n - 1));
      Run(before.results + [a.result], before.steps + a.steps)
  }

  // ------------------------------------------------------------------
  // The commands
  // ------------------------------------------------------------------

  method FindBackupFor(fs: FileSystem, w: World, target: Path, expected: string, c: Choice)
    returns (found: Result<Found, Reason>)
    ensures found == FindBackup(w, fs.disk, target, expected, c)
  {
    if target in fs.disk.files {
      if Fails(c, ReadTarget) {
        return Failure(Io(ReadTarget));
      }
      if w.hash(fs.disk.files[target].bytes) == expected {
        return Success(Current);
      }
    }
    if !HasFileName(target) {
      return Failure(NoFileName);
    }
    var dir := BackupsDir(target);
    if dir !in fs.disk.dirs {
      return Failure(NoBackupsDir);
    }
    if Fails(c, ListBackups) {
      return Failure(Io(ListBackups));
    }
    if Fails(c, ListEntry) {
      return Failure(Io(ListEntry));
    }
    var prefix := Name(target) + ".";
    var candidates: seq<Candidate> := [];
    for i := 0 to |c.order|
      invariant candidates == Candidates(fs.disk, dir, prefix, c.order[..i])
    {
      assert c.order[..i + 1][..i] == c.order[..i];
      if StartsWith(c.order[i], prefix) {
        candidates := candidates + [Candidate(MtimeOf(fs.disk, dir + [c.order[i]]), c.order[i])];
      }
    }
    assert c.order[..|c.order|] == c.order;
    if candidates == [] {
      return Failure(NoBackup);
    }
    candidates := NewestFirst(candidates);
    found := Success(Backup(dir + [candidates[0].name]));
  }

  method LoadBackup(fs: FileSystem, w: World, backup: Path, c: Choice) returns (r: Result<Bytes, Reason>)
    requires backup != []
    modifies fs
    ensures r == Load(w, old(fs.disk), backup, c).result
    ensures fs.trace == old(fs.trace) + Load(w, old(fs.disk), backup, c).steps
    ensures fs.disk == Last(old(fs.disk), Load(w, old(fs.disk), backup, c).steps)
  {
    if backup !in fs.disk.files || Fails(c, ReadBackup) {
      return Failure(Io(ReadBackup));
    }
    var bytes := fs.disk.files[backup].bytes;
    if !IsPointer(Name(backup)) {
      return Success(bytes);
    }
    var record := w.parse(bytes);
    if record.None? {
      return Failure(BadPointer);
    }
    var isOpen := fs.CreateDirAll(w.store + ["sha256"], c.now, Fails(c, OpenStore));
    if !isOpen {
      return Failure(Io(OpenStore));
    }
    r := ReadFromStore(w, fs.disk, record.value, c);
  }

  method WriteSyncRename(fs: FileSystem, target: Path, bytes: Bytes, c: Choice) returns (r: Result<Outcome, Reason>)
    requires target != []
    modifies fs
    ensures r == ReplaceByRename(old(fs.disk), target, bytes, c).result
    ensures fs.trace == old(fs.trace) + ReplaceByRename(old(fs.disk), target, bytes, c).steps
    ensures fs.disk == Last(old(fs.disk), ReplaceByRename(old(fs.disk), target, bytes, c).steps)
  {
    var temp := TempPath(target, c.tag);
    var ok := fs.Create(temp, c.now, Fails(c, CreateTemp));
    if !ok {
      return Failure(Io(CreateTemp));
    }
    ok := fs.WriteAll(temp, bytes, c.now, Fails(c, WriteTemp), Written(bytes, c));
    if !ok {
      return Failure(Io(WriteTemp));
    }
    ok := fs.SyncAll(temp, Fails(c, SyncTemp));
    if !ok {
      return Failure(Io(SyncTemp));
    }
    ok := fs.Rename(temp, target, Fails(c, RenameTemp));
    if !ok {
      return Failure(Io(RenameTemp));
    }
    r := Success(Restored);
  }

  method ReplaceTarget(fs: FileSystem, target: Path, bytes: Bytes, c: Choice) returns (r: Result<Outcome, Reason>)
    requires target != []
    modifies fs
    ensures r == Replace(old(fs.disk), target, bytes, c).result
    ensures fs.trace == old(fs.trace) + Replace(old(fs.disk), target, bytes, c).steps
    ensures fs.disk == Last(old(fs.disk), Replace(old(fs.disk), target, bytes, c).steps)
  {
    ghost var before := fs.disk;
    if Parent(target) in fs.disk.dirs {
      r := WriteSyncRename(fs, target, bytes, c);
    } else {
      var made := fs.CreateDirAll(Parent(target), c.now, Fails(c, CreateDirs));
      if !made {
        return Failure(Io(CreateDirs));
      }
      ghost var d1 := fs.disk;
      r := WriteSyncRename(fs, target, bytes, c);
      Continues(before, old(fs.trace), [d1], ReplaceByRename(d1, target, bytes, c).steps);
    }
  }

  // Two stretches of steps, one after the other.
  lemma Continues(d: Disk, trace: seq<Disk>, first: seq<Disk>, second: seq<Disk>)
    ensures Last(d, first + second) == Last(Last(d, first), second)
    ensures trace + (first + second) == (trace + first) + second
  {
  }

  method RestoreOne(fs: FileSystem, w: World, target: Path, expected: string, c: Choice)
    returns (r: Result<Outcome, Reason>)
    modifies fs
    ensures r == Restore(w, old(fs.disk), target, expected, c).result
    ensures fs.trace == old(fs.trace) + Restore(w, old(fs.disk), target, expected, c).steps
    ensures fs.disk == Last(old(fs.disk), Restore(w, old(fs.disk), target, expected, c).steps)
  {
    var found := FindBackupFor(fs, w, target, expected, c);
    match found {
      case Failure(reason) => r := Failure(reason);
      case Success(Current) => r := Success(KeptCurrent);
      case Success(Backup(backup)) =>
        var loaded := LoadBackup(fs, w, backup, c);
        match loaded {
          case Failure(reason) => r := Failure(reason);
          case Success(bytes) =>
            ghost var middle := fs.disk;
            r := ReplaceTarget(fs, target, bytes, c);
            Continues(old(fs.disk), old(fs.trace), Load(w, old(fs.disk), backup, c).steps,
                      Replace(middle, target, bytes, c).steps);
        }
    }
  }

  // ------------------------------------------------------------------
  // The journal
  // ------------------------------------------------------------------

  datatype OperationStatus = Prepared | Writing | Committing | Committed | RolledBack | Failed

  // The effect is None where it is not that of a deployment.
  datatype Operation = Operation(status: OperationStatus, effect: Option<DeployEffect>)

  datatype JournalError = DbFailed | NotFound | InvalidTransition(from: OperationStatus, to: OperationStatus)

  predicate IsValidTransition(from: OperationStatus, to: OperationStatus) {
    match (from, to)
    case (Prepared, Writing) => true
    case (Writing, Committing) => true
    case (Committing, Committed) => true
    case (Committed, RolledBack) => true
    case (Prepared, RolledBack) => true
    case (Writing, RolledBack) => true
    case (Prepared, Failed) => true
    case (Writing, Failed) => true
    case (Committing, Failed) => true
    case _ => false
  }

  // The rows after a transition was asked for.
  function Moved(rows: map<string, Operation>, id: string, to: OperationStatus, dbFails: bool): map<string, Operation> {
    if !dbFails && id in rows && IsValidTransition(rows[id].status, to) then rows[id := rows[id].(status := to)]
    else rows
  }

  // What a rollback may start from.
  predicate MayBeRolledBack(status: OperationStatus) {
    status == Prepared || status == Writing || status == Committed
  }

  class Journal {
    var rows: map<string, Operation>

    constructor ()
      ensures rows == map[]
    {
      rows := map[];
    }

    method Get(id: string, dbFails: bool) returns (r: Result<Option<Operation>, JournalError>)
      ensures r == if dbFails then Failure(DbFailed) else Success(if id in rows then Some(rows[id]) else None)
    {
      if dbFails {
        return Failure(DbFailed);
      }
      r := Success(if id in rows then Some(rows[id]) else None);
    }

    method Transition(id: string, to: OperationStatus, dbFails: bool) returns (r: Result<(), JournalError>)
      modifies this
      ensures r.Success? <==> !dbFails && id in old(rows) && IsValidTransition(old(rows)[id].status, to)
      ensures r.Failure? ==> r.error == if dbFails then DbFailed else if id !in old(rows) then NotFound
                                        else InvalidTransition(old(rows)[id].status, to)
      ensures rows == if r.Success? then old(rows)[id := old(rows)[id].(status := to)] else old(rows)
      ensures rows == Moved(old(rows), id, to, dbFails)
    {
      var row := Get(id, dbFails);
      match row {
        case Failure(e) => r := Failure(e);
        case Success(None) => r := Failure(NotFound);
        case Success(Some(op)) =>
          if IsValidTransition(op.status, to) {
            rows := rows[id := op.(status := to)];
            r := Success(());
          } else {
            r := Failure(InvalidTransition(op.status, to));
          }
      }
    }

    method Rollback(id: string, dbFails: bool) returns (r: Result<(), JournalError>)
      modifies this
      ensures r.Success? <==> !dbFails && id in old(rows) && MayBeRolledBack(old(rows)[id].status)
      ensures rows == if r.Success? then old(rows)[id := old(rows)[id].(status := RolledBack)] else old(rows)
    {
      r := Transition(id, RolledBack, dbFails);
    }
  }

  // ------------------------------------------------------------------
  // The whole command
  // ------------------------------------------------------------------

  datatype FailedRevert = FailedRevert(relative: Path, reason: Reason)

  datatype Summary = Summary(filesToRevert: nat, restored: nat, keptCurrent: nat, failed: seq<FailedRevert>)

  datatype RollbackError = JournalGet(error: JournalError) | NoSuchOperation | NotADeployEffect
                         | JournalFlip(error: JournalError)

  // The summary after the entries whose results are given.
  function Summarized(effect: DeployEffect, results: seq<Result<Outcome, Reason>>): Summary
    requires |results| <= |effect.writes|
  {
    if results == [] then Summary(|effect.writes|, 0, 0, [])
    else
      var n := |results| - 1;
      var before := Summarized(effect, results[..n]);
      match results[n]
      case Success(KeptCurrent) => before.(keptCurrent := before.keptCurrent + 1)
      case Success(Restored) => before.(restored := before.restored + 1)
      case Failure(reason) => before.(failed := before.failed + [FailedRevert(effect.writes[n].relative, reason)])
  }

  predicate AllSucceed(results: seq<Result<Outcome, Reason>>) {
    forall i :: 0 <= i < |results| ==> results[i].Success?
  }

  // The row is marked exactly when every entry went well and the row allows it.
  predicate Flips(row: Operation, results: seq<Result<Outcome, Reason>>, dbFails: bool) {
    AllSucceed(results) && !dbFails && MayBeRolledBack(row.status)
  }

  method RestoreAll(fs: FileSystem, w: World, effect: DeployEffect, choices: nat -> Choice) returns (summary: Summary)
    modifies fs
    ensures var run := RestoreFirst(w, old(fs.disk), effect, choices, |effect.writes|);
      && summary == Summarized(effect, run.results)
      && fs.trace == old(fs.trace) + run.steps
      && fs.disk == Last(old(fs.disk), run.steps)
  {
    summary := Summary(|effect.writes|, 0, 0, []);
    ghost var done := Run([], []);
    for i := 0 to |effect.writes|
      invariant done == RestoreFirst(w, old(fs.disk), effect, choices, i)
      invariant summary == Summarized(effect, done.results)
      invariant fs.trace == old(fs.trace) + done.steps
      invariant fs.disk == Last(old(fs.disk), done.steps)
    {
      ghost var before := done;
      ghost var a := Restore(w, fs.disk, TargetOf(effect, i), effect.writes[i].expectedSha256, choices(i));
      OneMoreResult(effect, before.results, a.result);
      var r := RestoreOne(fs, w, effect.target + effect.writes[i].relative, effect.writes[i].expectedSha256, choices(i));
      match r {
        case Success(KeptCurrent) => summary := summary.(keptCurrent := summary.keptCurrent + 1);
        case Success(Restored) => summary := summary.(restored := summary.restored + 1);
        case Failure(reason) =>
          summary := summary.(failed := summary.failed + [FailedRevert(effect.writes[i].relative, reason)]);
      }
      done := Run(before.results + [a.result], before.steps + a.steps);
      Continues(old(fs.disk), old(fs.trace), before.steps, a.steps);
    }
  }

  // The summary after one more entry.
  lemma OneMoreResult(effect: DeployEffect, results: seq<Result<Outcome, Reason>>, r: Result<Outcome, Reason>)
    requires |results| < |effect.writes|
    ensures Summarized(effect, results + [r]) ==
            var before := Summarized(effect, results);
            match r
            case Success(KeptCurrent) => before.(keptCurrent := before.keptCurrent + 1)
            case Success(Restored) => before.(restored := before.restored + 1)
            case Failure(reason) =>
              before.(failed := before.failed + [FailedRevert(effect.writes[|results|].relative, reason)])
  {
    assert (results + [r])[..|results|] == results;
  }

  lemma {:induction false} NoFailuresMeansAllWell(effect: DeployEffect, results: seq<Result<Outcome, Reason>>)
    requires |results| <= |effect.writes|
    ensures Summarized(effect, results).failed == [] <==> AllSucceed(results)
  {
    if results != [] {
      var n := |results| - 1;
      NoFailuresMeansAllWell(effect, results[..n]);
      assert forall i :: 0 <= i < n ==> results[..n][i] == results[i];
    }
  }

  method RollbackAt(journal: Journal, fs: FileSystem, w: World, id: string, choices: nat -> Choice,
                    getFails: bool, flipFails: bool)
    returns (r: Result<Summary, RollbackError>)
    modifies journal, fs
    ensures getFails || id !in old(journal.rows) || old(journal.rows)[id].effect.None? ==>
              && r == Failure(if getFails then JournalGet(DbFailed)
                              else if id !in old(journal.rows) then NoSuchOperation else NotADeployEffect)
              && fs.disk == old(fs.disk) && fs.trace == old(fs.trace) && journal.rows == old(journal.rows)
    ensures !getFails && id in old(journal.rows) && old(journal.rows)[id].effect.Some? ==>
              var row := old(journal.rows)[id];
              var effect := row.effect.value;
              var run := RestoreFirst(w, old(fs.disk), effect, choices, |effect.writes|);
              && fs.trace == old(fs.trace) + run.steps
              && fs.disk == Last(old(fs.disk), run.steps)
              && journal.rows == (if Flips(row, run.results, flipFails)
                                  then old(journal.rows)[id := row.(status := RolledBack)]
                                  else old(journal.rows))
              && (r.Success? ==> r.value == Summarized(effect, run.results))
              && (r.Failure? <==> Summarized(effect, run.results).failed == [] && !Flips(row, run.results, flipFails))
              && (r.Failure? ==> r.error.JournalFlip?)
              && (row.status == Committed && AllSucceed(run.results) && !flipFails ==>
                    r.Success? && journal.rows == old(journal.rows)[id := row.(status := RolledBack)])
  {
    var row := journal.Get(id, getFails);
    match row {
      case Failure(e) => r := Failure(JournalGet(e));
      case Success(None) => r := Failure(NoSuchOperation);
      case Success(Some(op)) =>
        if op.effect.None? {
          return Failure(NotADeployEffect);
        }
        var summary := RestoreAll(fs, w, op.effect.value, choices);
        ghost var run := RestoreFirst(w, old(fs.disk), op.effect.value, choices, |op.effect.value.writes|);
        NoFailuresMeansAllWell(op.effect.value, run.results);
        if summary.failed == [] {
          var flipped := journal.Rollback(id, flipFails);
          if flipped.Failure? {
            return Failure(JournalFlip(flipped.error));
          }
        }
        r := Success(summary);
    }
  }

  // The entries that ended in a given way.
  function Ending(results: seq<Result<Outcome, Reason>>, r: Result<Outcome, Reason>): set<nat> {
    set i: nat | i < |results| && results[i] == r
  }

  function Failing(results: seq<Result<Outcome, Reason>>): set<nat> {
    set i: nat | i < |results| && results[i].Failure?
  }

  lemma EndingGrows(results: seq<Result<Outcome, Reason>>, r: Result<Outcome, Reason>)
    requires results != []
    ensures |Ending(results, r)| == |Ending(results[..|results| - 1], r)| + (if results[|results| - 1] == r then 1 else 0)
  {
    var n := |results| - 1;
    assert Ending(results, r) == Ending(results[..n], r) + (if results[n] == r then {n} else {});
  }

  lemma FailingGrows(results: seq<Result<Outcome, Reason>>)
    requires results != []
    ensures |Failing(results)| == |Failing(results[..|results| - 1])| + (if results[|results| - 1].Failure? then 1 else 0)
  {
    var n := |results| - 1;
    assert Failing(results) == Failing(results[..n]) + (if results[n].Failure? then {n} else {});
  }

  /** The summary counts each outcome, and so accounts for every write. */
  lemma {:induction false} OutcomesAddUp(effect: DeployEffect, results: seq<Result<Outcome, Reason>>)
    requires |results| <= |effect.writes|
    ensures var s := Summarized(effect, results);
      && s.restored == |Ending(results, Success(Restored))|
      && s.keptCurrent == |Ending(results, Success(KeptCurrent))|
      && |s.failed| == |Failing(results)|
      && s.restored + s.keptCurrent + |s.failed| == |results| && s.filesToRevert == |effect.writes|
  {
    if results != [] {
      OutcomesAddUp(effect, results[..|results| - 1]);
      EndingGrows(results, Success(Restored));
      EndingGrows(results, Success(KeptCurrent));
      FailingGrows(results);
    }
  }

  /** Every failed entry is listed with its reason. */
  lemma {:induction false} FailuresAreListed(effect: DeployEffect, results: seq<Result<Outcome, Reason>>, i: nat)
    requires i < |results| <= |effect.writes| && results[i].Failure?
    ensures FailedRevert(effect.writes[i].relative, results[i].error) in Summarized(effect, results).failed
  {
    if i < |results| - 1 {
      FailuresAreListed(effect, results[..|results| - 1], i);
    }
  }
}
