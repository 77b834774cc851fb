/**
 * The local filesystem as the reaper and the uploader see it: regular files
 * (with their length in bytes) and directories, addressed by component paths.
 * Faults are fixed when the disk is built: `broken` paths fail every
 * operation with an error other than NotFound (a permission error, say), and
 * `unwritable` files open but fail every write.
 */
module Fs {
  import opened Wrappers
  import opened Schema

  datatype IoError = NotFound | Other

  /** `entry` sits directly inside `dir`. */
  predicate IsChild(dir: Path, entry: Path) {
    |entry| == |dir| + 1 && entry[..|dir|] == dir
  }

  /** `dir` and all of its ancestors, as `create_dir_all` creates them. */
  function Ancestors(dir: Path): (r: set<Path>)
    ensures dir != [] ==> dir in r
    ensures forall k :: 1 <= k <= |dir| ==> dir[..k] in r
    ensures forall d :: d in r ==> 1 <= |d| <= |dir| && d == dir[..|d|]
  {
    var r := set k | 1 <= k <= |dir| :: dir[..k];
    assert dir[..|dir|] == dir;
    assert dir != [] ==> dir[..|dir|] in r;
    r
  }

  /**
   * What opening `p` for writing with create and truncate reports, given the
   * directories and the broken paths: the parent directory must exist and `p`
   * must not itself be a directory. A parent that is missing and a parent that
   * is a regular file are both reported as NotFound, although the OS reports
   * the second as a different error; `upload_file` opens files only in a
   * directory that `create_dir_all` has just made, so it never meets it.
   */
  function OpenTruncateResult(dirs: set<Path>, broken: set<Path>, p: Path): Result<(), IoError> {
    if p == [] || p in broken || p in dirs then Err(Other)
    else if p[..|p| - 1] !in dirs then Err(NotFound)
    else Ok(())
  }

  /** The files (with their lengths) and directories on the disk at one moment. */
  datatype DiskState = DiskState(files: map<Path, nat>, dirs: set<Path>)

  /** Some file or directory lies directly inside `dir`. */
  predicate HasEntries(s: DiskState, dir: Path) {
    (exists f :: f in s.files && IsChild(dir, f)) || (exists d :: d in s.dirs && IsChild(dir, d))
  }

  /** What `std::fs::remove_file` reports in state `s`: a directory or a broken path is another error. */
  function RemoveFileResult(s: DiskState, broken: set<Path>, p: Path): (r: Result<(), IoError>)
    ensures r.Ok? <==> p in s.files && p !in broken && p !in s.dirs
    ensures r == Err(NotFound) <==> p !in s.files && p !in broken && p !in s.dirs
  {
    if p in broken || p in s.dirs then Err(Other)
    else if p !in s.files then Err(NotFound)
    else Ok(())
  }

  /** What `std::fs::remove_dir` reports in state `s`: only an empty directory can be removed. */
  function RemoveDirResult(s: DiskState, broken: set<Path>, p: Path): (r: Result<(), IoError>)
    ensures r.Ok? <==> p in s.dirs && p !in broken && p !in s.files && !HasEntries(s, p)
    ensures r == Err(NotFound) <==> p !in s.dirs && p !in broken && p !in s.files
  {
    if p in broken || p in s.files then Err(Other)
    else if p !in s.dirs then Err(NotFound)
    else if HasEntries(s, p) then Err(Other)
    else Ok(())
  }

  /** The state after `remove_file(p)`: the file is gone exactly when the removal succeeded. */
  function AfterRemoveFile(s: DiskState, broken: set<Path>, p: Path): (t: DiskState)
    ensures t.dirs == s.dirs
    ensures t.files == if RemoveFileResult(s, broken, p).Ok? then s.files - {p} else s.files
  {
    if RemoveFileResult(s, broken, p).Ok? then s.(files := s.files - {p}) else s
  }

  /** The state after `remove_dir(p)`: the directory is gone exactly when the removal succeeded. */
  function AfterRemoveDir(s: DiskState, broken: set<Path>, p: Path): (t: DiskState)
    ensures t.files == s.files
    ensures t.dirs == if RemoveDirResult(s, broken, p).Ok? then s.dirs - {p} else s.dirs
  {
    if RemoveDirResult(s, broken, p).Ok? then s.(dirs := s.dirs - {p}) else s
  }

  class Disk {
    var files: map<Path, nat>
    var dirs: set<Path>
    const broken: set<Path>
    const unwritable: set<Path>

    constructor (files: map<Path, nat>, dirs: set<Path>, broken: set<Path>, unwritable: set<Path>)
      ensures this.files == files && this.dirs == dirs
      ensures this.broken == broken && this.unwritable == unwritable
    {
      this.files := files;
      this.dirs := dirs;
      this.broken := broken;
      this.unwritable := unwritable;
    }

    /** The files and directories now on the disk. */
    function State(): DiskState
      reads this
    {
      DiskState(files, dirs)
    }

    /** `std::fs::remove_file`. */
    method RemoveFile(p: Path) returns (r: Result<(), IoError>)
      modifies this
      ensures r == RemoveFileResult(old(State()), broken, p)
      ensures State() == AfterRemoveFile(old(State()), broken, p)
      ensures dirs == old(dirs)
      ensures files == if r.Ok? then old(files) - {p} else old(files)
      ensures r != Err(Other) ==> p !in files
    {
      r := RemoveFileResult(State(), broken, p);
      if r.Ok? {
        files := files - {p};
      }
    }

    /** `std::fs::remove_dir`. */
    method RemoveDir(p: Path) returns (r: Result<(), IoError>)
      modifies this
      ensures r == RemoveDirResult(old(State()), broken, p)
      ensures State() == AfterRemoveDir(old(State()), broken, p)
      ensures files == old(files)
      ensures dirs == if r.Ok? then old(dirs) - {p} else old(dirs)
      ensures r != Err(Other) ==> p !in dirs
    {
      r := RemoveDirResult(State(), broken, p);
      if r.Ok? {
        dirs := dirs - {p};
      }
    }

    /** `create_dir_all`: creates the directory and its missing ancestors. */
    method CreateDirAll(p: Path) returns (r: Result<(), IoError>)
      modifies this
      ensures files == old(files)
      ensures r.Ok? <==> Ancestors(p) !! (broken + old(files.Keys))
      ensures r.Err? ==> r.error == Other
      ensures dirs == if r.Ok? then old(dirs) + Ancestors(p) else old(dirs)
    {
      if Ancestors(p) !! (broken + files.Keys) {
        dirs := dirs + Ancestors(p);
        r := Ok(());
      } else {
        r := Err(Other);
      }
    }

    /** `OpenOptions::new().write(true).create(true).truncate(true).open`: the file is left empty. */
    method OpenTruncate(p: Path) returns (r: Result<(), IoError>)
      modifies this
      ensures dirs == old(dirs)
      ensures r == OpenTruncateResult(old(dirs), broken, p)
      ensures files == if r.Ok? then old(files)[p := 0] else old(files)
    {
      if p == [] || p in broken || p in dirs {
        r := Err(Other);
      } else if p[..|p| - 1] !in dirs {
        r := Err(NotFound);
      } else {
        files := files[p := 0];
        r := Ok(());
      }
    }

    /** `write_all_buf` of `len` bytes to an open file; an empty buffer needs no write at all. */
    method Write(p: Path, len: nat) returns (r: Result<(), IoError>)
      requires p in files
      modifies this
      ensures dirs == old(dirs)
      ensures r.Ok? <==> len == 0 || p !in unwritable
      ensures r.Err? ==> r.error == Other
      ensures files == if r.Ok? then old(files)[p := old(files)[p] + len] else old(files)
    {
      if len > 0 && p in unwritable {
        r := Err(Other);
      } else {
        files := files[p := files[p] + len];
        r := Ok(());
      }
    }
  }
}
