/** The part of a file system that a rollback sees: files whose bytes may not have
    reached the disk yet, directories, and the calls that change them. */
module RollbackDisk {
  type Bytes = seq<bv8>

  // A path is its list of component names; the empty list is the root.
  type Path = seq<string>

  // The modification time is None where it cannot be read.
  datatype File = File(bytes: Bytes, synced: bool, mtime: Option<int>)

  datatype Disk = Disk(dirs: map<Path, Option<int>>, files: map<Path, File>)

  import opened Wrappers

  function Parent(p: Path): Path
    requires p != []
  {
    p[..|p| - 1]
  }

  function Name(p: Path): string
    requires p != []
  {
    p[|p| - 1]
  }

  function WithFile(d: Disk, p: Path, f: File): Disk {
    d.(files := d.files[p := f])
  }

  function Renamed(d: Disk, from: Path, to: Path): Disk
    requires from in d.files
  {
    d.(files := (d.files - {from})[to := d.files[from]])
  }

  function Prefixes(p: Path): set<Path> {
    set k | 0 <= k <= |p| :: p[..k]
  }

  // The directory and all its ancestors exist afterwards.
  function WithDirs(d: Disk, p: Path, now: int): Disk {
    d.(dirs := map q | q in d.dirs.Keys + Prefixes(p) :: if q in d.dirs then d.dirs[q] else Some(now))
  }

  predicate BlockedByFile(d: Disk, p: Path) {
    exists k :: 0 <= k <= |p| && p[..k] in d.files
  }

  /** What a crash may leave: every directory entry as it is, every synced file as it
      is, and any bytes at all in a file that has not been synced. */
  ghost predicate Crashed(d: Disk, image: Disk) {
    && image.dirs == d.dirs
    && image.files.Keys == d.files.Keys
    && forall p :: p in d.files && d.files[p].synced ==> image.files[p].bytes == d.files[p].bytes
  }

  function Last(d: Disk, steps: seq<Disk>): Disk {
    if steps == [] then d else steps[|steps| - 1]
  }

  // The disk, with every state it has passed through.
  class FileSystem {
    var disk: Disk
    ghost var trace: seq<Disk>

    constructor (d: Disk)
      ensures disk == d && trace == []
    {
      disk, trace := d, [];
    }

    method CreateDirAll(p: Path, now: int, fails: bool) returns (ok: bool)
      modifies this
      ensures ok <==> !fails && !BlockedByFile(old(disk), p)
      ensures disk == if ok then WithDirs(old(disk), p, now) else old(disk)
      ensures trace == if ok then old(trace) + [disk] else old(trace)
    {
      ok := !fails && !BlockedByFile(disk, p);
      if ok {
        disk := WithDirs(disk, p, now);
        trace := trace + [disk];
      }
    }

    // Creates the file, or empties it.
    method Create(p: Path, now: int, fails: bool) returns (ok: bool)
      modifies this
      ensures ok <==> !fails && p !in old(disk).dirs
      ensures disk == if ok then WithFile(old(disk), p, File([], false, Some(now))) else old(disk)
      ensures trace == if ok then old(trace) + [disk] else old(trace)
    {
      ok := !fails && p !in disk.dirs;
      if ok {
        disk := WithFile(disk, p, File([], false, Some(now)));
        trace := trace + [disk];
      }
    }

    // Writes an empty file; a write that fails has written some of the bytes.
    method WriteAll(p: Path, bytes: Bytes, now: int, fails: bool, written: nat) returns (ok: bool)
      requires p in disk.files && written <= |bytes|
      modifies this
      ensures ok <==> !fails
      ensures disk == WithFile(old(disk), p, File(if ok then bytes else bytes[..written], false, Some(now)))
      ensures trace == old(trace) + [disk]
    {
      ok := !fails;
      disk := WithFile(disk, p, File(if ok then bytes else bytes[..written], false, Some(now)));
      trace := trace + [disk];
    }

    method SyncAll(p: Path, fails: bool) returns (ok: bool)
      requires p in disk.files
      modifies this
      ensures ok <==> !fails
      ensures disk == if ok then WithFile(old(disk), p, old(disk).files[p].(synced := true)) else old(disk)
      ensures trace == if ok then old(trace) + [disk] else old(trace)
    {
      ok := !fails;
      if ok {
        disk := WithFile(disk, p, disk.files[p].(synced := true));
        trace := trace + [disk];
      }
    }

    method Rename(from: Path, to: Path, fails: bool) returns (ok: bool)
      requires from in disk.files
      modifies this
      ensures ok <==> !fails && to !in old(disk).dirs
      ensures disk == if ok then Renamed(old(disk), from, to) else old(disk)
      ensures trace == if ok then old(trace) + [disk] else old(trace)
    {
      ok := !fails && to !in disk.dirs;
      if ok {
        disk := Renamed(disk, from, to);
        trace := trace + [disk];
      }
    }
  }
}
