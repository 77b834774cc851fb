/**
 * The stand-alone `cleanup` binary: it resolves the database URL, then removes
 * the files of content-expired tokens and calls `delete_files` per token. It
 * never removes directories and never calls `delete_expired_tokens`.
 */
module CleanupBin {
  import opened Wrappers
  import opened Schema
  import opened Db
  import opened Fs
  import Cleanup

  /** What `std::env::var("DATABASE_URL")` can report. */
  datatype EnvVar = Present(value: string) | NotPresent | NotUnicode

  datatype MainError = Config(message: string) | Io(error: IoError)

  /** The `--database-url` argument if given, else the environment variable. */
  function ResolveDatabaseUrl(arg: Option<string>, env: EnvVar): (r: Result<string, string>)
    ensures arg.Some? ==> r == Ok(arg.value)
    ensures arg.None? ==> (r.Ok? <==> env.Present?)
    ensures arg.None? && env.Present? ==> r == Ok(env.value)
  {
    match arg
    case Some(x) => Ok(x)
    case None =>
      match env
      case Present(x) => Ok(x)
      case NotPresent => Err("DATABASE_URL env var not found")
      case NotUnicode => Err("DATABASE_URL env var not valid unicode")
  }

  /** An absent variable and a non-unicode one are reported differently, and the argument wins over both. */
  lemma DatabaseUrlErrorsDistinct(env: EnvVar)
    ensures ResolveDatabaseUrl(None, NotPresent) != ResolveDatabaseUrl(None, NotUnicode)
    ensures ResolveDatabaseUrl(None, NotPresent).Err? && ResolveDatabaseUrl(None, NotUnicode).Err?
    ensures forall url :: ResolveDatabaseUrl(Some(url), env) == Ok(url)
  {
  }

  /**
   * The inner loop from state `s`: remove each file in turn; NotFound is
   * reported and skipped, any other error ends the run. Only a broken path or
   * a directory in the way can stop it.
   */
  function FilesRun(s: DiskState, broken: set<Path>, files: seq<File>): (run: Cleanup.DiskRun)
    ensures run.result.Err? ==> run.result.error == Other
    ensures run.result.Ok? <==> forall f :: f in files ==> f.path !in broken && f.path !in s.dirs
    ensures run.result.Ok? ==> run.state.files == s.files - Cleanup.PathsOf(files)
    ensures run.state.dirs == s.dirs && run.state.files.Keys <= s.files.Keys
    decreases |files|
  {
    if files == [] then Cleanup.DiskRun(Ok(()), s)
    else
      var removed := RemoveFileResult(s, broken, files[0].path);
      if removed == Err(Other) then Cleanup.DiskRun(removed, s)
      else
        Cleanup.PathsOfCons(files);
        assert forall f :: f in files <==> f == files[0] || f in files[1..];
        FilesRun(AfterRemoveFile(s, broken, files[0].path), broken, files[1..])
  }

  /**
   * The file removals of `main` from state `s`: the inner loop for each token
   * in turn; the first token whose loop fails ends the run, at its index. The
   * run succeeds exactly when no listed file is broken or a directory.
   */
  function BinRun(s: DiskState, broken: set<Path>, todo: seq<(Token, seq<File>)>): (run: Cleanup.PassRun)
    ensures run.result.Ok? ==> run.k == |todo|
    ensures run.result.Err? ==> run.k < |todo| && run.result.error == Other
    ensures run.result.Ok? <==> forall e, f :: e in todo && f in e.1 ==> f.path !in broken && f.path !in s.dirs
    ensures run.result.Ok? ==> run.state.files == s.files - Cleanup.TodoPaths(todo)
    ensures run.state.dirs == s.dirs && run.state.files.Keys <= s.files.Keys
    decreases |todo|
  {
    if todo == [] then Cleanup.PassRun(Ok(()), 0, s)
    else
      var t := FilesRun(s, broken, todo[0].1);
      assert forall e :: e in todo <==> e == todo[0] || e in todo[1..];
      if t.result.Err? then Cleanup.PassRun(t.result, 0, t.state)
      else
        var rest := BinRun(t.state, broken, todo[1..]);
        Cleanup.TodoPathsCons(todo);
        Cleanup.PassRun(rest.result, rest.k + 1, rest.state)
  }

  /** `run` is what `main` gives when its tokens from `i` on are handled from state `s`. */
  ghost predicate BinReaches(run: Cleanup.PassRun, s: DiskState, broken: set<Path>, todo: seq<(Token, seq<File>)>, i: int)
    requires 0 <= i <= |todo|
  {
    var rest := BinRun(s, broken, todo[i..]);
    run == Cleanup.PassRun(rest.result, rest.k + i, rest.state)
  }

  /** Token `i` succeeds in its inner loop: the run goes on from the state that loop leaves. */
  lemma BinAdvance(run: Cleanup.PassRun, s: DiskState, broken: set<Path>, todo: seq<(Token, seq<File>)>, i: int)
    requires 0 <= i < |todo| && BinReaches(run, s, broken, todo, i)
    requires FilesRun(s, broken, todo[i].1).result.Ok?
    ensures BinReaches(run, FilesRun(s, broken, todo[i].1).state, broken, todo, i + 1)
  {
    assert todo[i..][0] == todo[i];
    assert todo[i..][1..] == todo[i + 1..];
  }

  /** Token `i` fails in its inner loop: the run ends there with that error. */
  lemma BinStops(run: Cleanup.PassRun, s: DiskState, broken: set<Path>, todo: seq<(Token, seq<File>)>, i: int)
    requires 0 <= i < |todo| && BinReaches(run, s, broken, todo, i)
    requires FilesRun(s, broken, todo[i].1).result.Err?
    ensures run == Cleanup.PassRun(FilesRun(s, broken, todo[i].1).result, i, FilesRun(s, broken, todo[i].1).state)
  {
    assert todo[i..][0] == todo[i];
  }

  /** With every token handled the run has succeeded in the current state. */
  lemma BinDone(run: Cleanup.PassRun, s: DiskState, broken: set<Path>, todo: seq<(Token, seq<File>)>)
    requires BinReaches(run, s, broken, todo, |todo|)
    ensures run == Cleanup.PassRun(Ok(()), |todo|, s)
  {
    assert todo[|todo|..] == [];
  }

  /** Inner loop: remove each file; NotFound is reported and skipped, any other error ends the run. */
  method RemoveFiles(disk: Disk, files: seq<File>) returns (r: Result<(), IoError>)
    modifies disk
    ensures var run := FilesRun(old(disk.State()), disk.broken, files);
      r == run.result && disk.State() == run.state
    ensures disk.dirs == old(disk.dirs)
    ensures r.Ok? ==> disk.files == old(disk.files) - Cleanup.PathsOf(files)
    ensures r.Err? ==> r.error == Other
    ensures disk.files.Keys <= old(disk.files.Keys)
  {
    ghost var run := FilesRun(disk.State(), disk.broken, files);
    var j := 0;
    while j < |files|
      invariant 0 <= j <= |files|
      invariant FilesRun(disk.State(), disk.broken, files[j..]) == run
    {
      assert files[j..][0] == files[j] && files[j..][1..] == files[j + 1..];
      var removed := disk.RemoveFile(files[j].path);
      if removed.Err? && removed.error != NotFound {
        return Err(removed.error);
      }
      j := j + 1;
    }
    r := Ok(());
  }

  /** `main` after argument parsing; the connection is the `store` passed in. */
  method Run(store: Store, disk: Disk, now: int, arg: Option<string>, env: EnvVar) returns (r: Result<(), MainError>)
    requires store.Valid()
    modifies store, disk
    ensures store.Valid()
    ensures disk.dirs == old(disk.dirs)
    ensures disk.files.Keys <= old(disk.files.Keys)
    ensures ResolveDatabaseUrl(arg, env).Err? ==>
      r == Err(Config(ResolveDatabaseUrl(arg, env).error)) &&
      store.tokens == old(store.tokens) && store.files == old(store.files) && disk.files == old(disk.files)
    ensures var run := BinRun(old(disk.State()), disk.broken, ExpiredFiles(old(store.tokens), old(store.files), now));
      ResolveDatabaseUrl(arg, env).Ok? ==>
        (r.Ok? <==> run.result.Ok?) && (r.Err? ==> r == Err(Io(run.result.error))) && disk.State() == run.state
    ensures r.Ok? ==>
      && store.tokens == MarkTokensDeleted(old(store.tokens), Cleanup.ExpiredIds(old(store.tokens), now), now)
      && store.files == Cleanup.CleanedFiles(old(store.tokens), old(store.files), now)
      && disk.files == old(disk.files) - Cleanup.FilePathsOf(old(store.files), Cleanup.ExpiredIds(old(store.tokens), now))
    ensures r.Err? && ResolveDatabaseUrl(arg, env).Ok? ==>
      r == Err(Io(Other)) &&
      exists k :: 0 <= k < |ContentExpiredTokens(old(store.tokens), now)| &&
        Cleanup.FirstPassState(store, old(store.tokens), old(store.files), ContentExpiredTokens(old(store.tokens), now), k, now)
  {
    var dbUrl := ResolveDatabaseUrl(arg, env);
    if dbUrl.Err? {
      return Err(Config(dbUrl.error));
    }
    ghost var tokens0, files0 := store.tokens, store.files;
    ghost var ce := ContentExpiredTokens(tokens0, now);
    var stuffToDel := store.GetExpiredFiles(now);
    ghost var run := BinRun(disk.State(), disk.broken, stuffToDel);
    var i := 0;
    assert ce[..0] == [];
    assert stuffToDel[0..] == stuffToDel;
    while i < |stuffToDel|
      invariant 0 <= i <= |stuffToDel| == |ce|
      invariant BinReaches(run, disk.State(), disk.broken, stuffToDel, i)
      invariant store.Valid()
      invariant Cleanup.FirstPassState(store, tokens0, files0, ce, i, now)
    {
      var token := stuffToDel[i].0;
      var files := stuffToDel[i].1;
      assert token == ce[i] && files == FilesOf(files0, ce[i].id);
      ghost var before := disk.State();
      var removed := RemoveFiles(disk, files);
      if removed.Err? {
        BinStops(run, before, disk.broken, stuffToDel, i);
        assert Cleanup.FirstPassState(store, tokens0, files0, ce, i, now);
        return Err(Io(removed.error));
      }
      BinAdvance(run, before, disk.broken, stuffToDel, i);
      Cleanup.FirstPassStep(tokens0, files0, ce, i, now);
      var n := store.DeleteFiles([token], now);
      i := i + 1;
    }
    assert ce[..i] == ce;
    BinDone(run, disk.State(), disk.broken, stuffToDel);
    Cleanup.TodoPathsOfExpired(tokens0, files0, now);
    r := Ok(());
  }
}
