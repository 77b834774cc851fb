/**
 * The expiration reaper of the web application: `cleanup_once` and
 * `remove_token_dir`. A token's directory is `root/<token path>`.
 */
module Cleanup {
  import opened Wrappers
  import opened Schema
  import opened Db
  import opened Fs

  /** Ids of the tokens the first pass handles, in the order it handles them. */
  function ExpiredIds(tokens: seq<Token>, now: int): seq<int> {
    TokenIds(ContentExpiredTokens(tokens, now))
  }

  /** Token table after a successful run: `delete_files` on every content-expired token, then `delete_expired_tokens`. */
  function CleanedTokens(tokens: seq<Token>, now: int): seq<Token> {
    ExpireRows(MarkTokensDeleted(tokens, ExpiredIds(tokens, now), now), now)
  }

  /** File table after a successful run. */
  function CleanedFiles(tokens: seq<Token>, files: seq<File>, now: int): seq<File> {
    MarkFilesDeleted(files, ExpiredIds(tokens, now), now)
  }

  /** Paths the second pass gets back from `delete_expired_tokens`. */
  function SecondPassPaths(tokens: seq<Token>, now: int): seq<string> {
    ExpiredPaths(MarkTokensDeleted(tokens, ExpiredIds(tokens, now), now), now)
  }

  /** Disk paths of the files of the tokens whose ids are listed. */
  function FilePathsOf(files: seq<File>, ids: seq<int>): set<Path> {
    set f | f in files && f.tokenId in ids :: f.path
  }

  function TokenDir(root: Path, tokenPath: string): Path {
    root + [tokenPath]
  }

  /** After a successful run no row is left for either query of the reaper to select. */
  lemma CleanedLeavesNothingReapable(tokens: seq<Token>, now: int)
    ensures forall t :: t in CleanedTokens(tokens, now) ==> !IsReapable(t, now)
    ensures ContentExpiredTokens(CleanedTokens(tokens, now), now) == []
    ensures ExpiredPaths(CleanedTokens(tokens, now), now) == []
  {
    var m := MarkTokensDeleted(tokens, ExpiredIds(tokens, now), now);
    ExpireRowsIdempotent(m, now);
    var c := CleanedTokens(tokens, now);
    NothingContentExpired(c, now);
  }

  lemma {:induction false} NothingContentExpired(tokens: seq<Token>, now: int)
    requires forall t :: t in tokens ==> !IsReapable(t, now)
    ensures ContentExpiredTokens(tokens, now) == []
  {
    if tokens != [] {
      assert tokens[0] in tokens;
      assert forall t :: t in tokens[1..] ==> t in tokens;
      NothingContentExpired(tokens[1..], now);
    }
  }

  /**
   * Running the reaper twice at the same `now` with no new rows: the second
   * run selects nothing, so neither table changes.
   */
  lemma CleanupIdempotent(tokens: seq<Token>, files: seq<File>, now: int)
    ensures var t1 := CleanedTokens(tokens, now);
      && ExpiredIds(t1, now) == []
      && SecondPassPaths(t1, now) == []
      && CleanedTokens(t1, now) == t1
      && CleanedFiles(t1, CleanedFiles(tokens, files, now), now) == CleanedFiles(tokens, files, now)
  {
    var t1 := CleanedTokens(tokens, now);
    CleanedLeavesNothingReapable(tokens, now);
    assert ExpiredIds(t1, now) == [];
    assert MarkTokensDeleted(t1, [], now) == t1;
    var f1 := CleanedFiles(tokens, files, now);
    assert MarkFilesDeleted(f1, [], now) == f1;
    assert ExpireRows(t1, now) == t1;
  }

  /** The first pass's `delete_files` marks every token whose content expired as Deleted. */
  lemma FirstPassDeletesContentExpired(tokens: seq<Token>, now: int, i: int)
    requires 0 <= i < |tokens| && IsContentExpired(tokens[i], now)
    ensures CleanedTokens(tokens, now)[i].status == Deleted
    ensures CleanedTokens(tokens, now)[i].deletedAt == Some(now)
  {
    var ce := ContentExpiredTokens(tokens, now);
    assert tokens[i] in ce;
    var k :| 0 <= k < |ce| && ce[k] == tokens[i];
    assert ExpiredIds(tokens, now)[k] == tokens[i].id;
  }

  /** The second pass never returns a token the first pass handled. */
  lemma SecondPassSkipsFirstPass(tokens: seq<Token>, now: int, t: Token)
    requires TokenIdsUnique(tokens)
    requires t in tokens && IsContentExpired(t, now)
    ensures forall u :: u in MarkTokensDeleted(tokens, ExpiredIds(tokens, now), now) && u.id == t.id
                        ==> !IsReapable(u, now)
  {
    var ids := ExpiredIds(tokens, now);
    var ce := ContentExpiredTokens(tokens, now);
    var k :| 0 <= k < |ce| && ce[k] == t;
    assert ids[k] == t.id;
  }

  /** What `remove_token_dir` returns in state `s`: a missing directory counts as removed. */
  function TokenDirResult(s: DiskState, broken: set<Path>, path: Path): (r: Result<(), IoError>)
    ensures r.Ok? <==> RemoveDirResult(s, broken, path) != Err(Other)
    ensures r.Err? ==> r.error == Other
  {
    var res := RemoveDirResult(s, broken, path);
    if res == Err(NotFound) then Ok(()) else res
  }

  /** `remove_token_dir`: a missing directory counts as removed; any other error is passed on. */
  method RemoveTokenDir(disk: Disk, path: Path) returns (r: Result<(), IoError>)
    modifies disk
    ensures r == TokenDirResult(old(disk.State()), disk.broken, path)
    ensures disk.State() == AfterRemoveDir(old(disk.State()), disk.broken, path)
    ensures disk.files == old(disk.files)
    ensures disk.dirs == if RemoveDirResult(old(disk.State()), disk.broken, path).Ok? then old(disk.dirs) - {path} else old(disk.dirs)
    ensures r.Ok? ==> path !in disk.dirs
  {
    var res := disk.RemoveDir(path);
    match res
    case Ok(_) => r := Ok(());
    case Err(NotFound) => r := Ok(());
    case Err(e) => r := Err(e);
  }

  /**
   * The token directory is tried after each file: while another file of the
   * token is still inside it the attempt fails with an error other than
   * NotFound.
   */
  lemma SiblingBlocksDirRemoval(s: DiskState, broken: set<Path>, dir: Path, sibling: Path)
    requires dir in s.dirs && dir !in broken && dir !in s.files
    requires sibling in s.files && IsChild(dir, sibling)
    ensures RemoveDirResult(s, broken, dir) == Err(Other)
    ensures TokenDirResult(s, broken, dir) == Err(Other)
  {
  }

  /** The outcome of a run over the disk and the state it leaves. */
  datatype DiskRun = DiskRun(result: Result<(), IoError>, state: DiskState)

  /**
   * The inner loop of the first pass from state `s`: remove each file in
   * turn, skipping NotFound; after each file try the token directory `dir`;
   * the first error other than NotFound, from either removal, ends the run.
   */
  function TokenFilesRun(s: DiskState, broken: set<Path>, dir: Path, files: seq<File>): (run: DiskRun)
    ensures run.result.Err? ==> run.result.error == Other
    ensures run.result.Ok? ==> run.state.files == s.files - PathsOf(files)
    ensures run.result.Ok? && files != [] ==> dir !in run.state.dirs
    ensures run.state.files.Keys <= s.files.Keys
    ensures run.state.dirs <= s.dirs && s.dirs - run.state.dirs <= {dir}
    decreases |files|
  {
    if files == [] then DiskRun(Ok(()), s)
    else
      var removed := RemoveFileResult(s, broken, files[0].path);
      if removed == Err(Other) then DiskRun(removed, s)
      else
        var s1 := AfterRemoveFile(s, broken, files[0].path);
        var dirRemoved := TokenDirResult(s1, broken, dir);
        if dirRemoved.Err? then DiskRun(dirRemoved, s1)
        else
          PathsOfCons(files);
          TokenFilesRun(AfterRemoveDir(s1, broken, dir), broken, dir, files[1..])
  }

  lemma PathsOfCons(files: seq<File>)
    requires files != []
    ensures PathsOf(files) == {files[0].path} + PathsOf(files[1..])
  {
    assert forall f :: f in files <==> f == files[0] || f in files[1..];
  }

  /**
   * Files that are already gone and a directory that is already gone are
   * skipped: the run succeeds and changes nothing, so re-running after a
   * complete run is harmless.
   */
  lemma {:induction false} TokenFilesAlreadyGone(s: DiskState, broken: set<Path>, dir: Path, files: seq<File>)
    requires forall f :: f in files ==> f.path !in s.files && f.path !in s.dirs && f.path !in broken
    requires dir !in s.dirs && dir !in s.files && dir !in broken
    ensures TokenFilesRun(s, broken, dir, files) == DiskRun(Ok(()), s)
    decreases |files|
  {
    if files != [] {
      assert files[0] in files;
      assert forall f :: f in files[1..] ==> f in files;
      TokenFilesAlreadyGone(s, broken, dir, files[1..]);
    }
  }

  /** A token with one file, alone in its directory and nothing faulty: the file and then the directory go. */
  lemma TokenFilesSingle(s: DiskState, broken: set<Path>, dir: Path, f: File)
    requires f.path in s.files && f.path !in s.dirs && f.path !in broken && IsChild(dir, f.path)
    requires dir in s.dirs && dir !in s.files && dir !in broken
    requires forall q :: q in s.files && IsChild(dir, q) ==> q == f.path
    requires forall d :: d in s.dirs ==> !IsChild(dir, d)
    ensures TokenFilesRun(s, broken, dir, [f]) == DiskRun(Ok(()), DiskState(s.files - {f.path}, s.dirs - {dir}))
  {
    var s1 := AfterRemoveFile(s, broken, f.path);
    assert !HasEntries(s1, dir);
    assert [f][1..] == [];
  }

  /**
   * Two files of one token both present: after removing the first, the
   * directory attempt finds the second still inside and fails, so the run
   * stops there with the second file left on disk.
   */
  lemma TokenFilesSiblingStops(s: DiskState, broken: set<Path>, dir: Path, files: seq<File>)
    requires |files| >= 2 && files[0].path != files[1].path
    requires files[0].path in s.files && files[0].path !in s.dirs && files[0].path !in broken
    requires files[1].path in s.files && IsChild(dir, files[1].path)
    requires dir in s.dirs && dir !in s.files && dir !in broken
    ensures TokenFilesRun(s, broken, dir, files) == DiskRun(Err(Other), DiskState(s.files - {files[0].path}, s.dirs))
    ensures files[1].path in TokenFilesRun(s, broken, dir, files).state.files
  {
    var s1 := AfterRemoveFile(s, broken, files[0].path);
    SiblingBlocksDirRemoval(s1, broken, dir, files[1].path);
  }

  /** One turn of the inner loop, seen from the suffix of the files still to go. */
  lemma TokenFilesRunStep(s: DiskState, broken: set<Path>, dir: Path, files: seq<File>, j: int)
    requires 0 <= j < |files|
    ensures var removed := RemoveFileResult(s, broken, files[j].path);
      var s1 := AfterRemoveFile(s, broken, files[j].path);
      TokenFilesRun(s, broken, dir, files[j..]) ==
        if removed == Err(Other) then DiskRun(removed, s)
        else if TokenDirResult(s1, broken, dir).Err? then DiskRun(TokenDirResult(s1, broken, dir), s1)
        else TokenFilesRun(AfterRemoveDir(s1, broken, dir), broken, dir, files[j + 1..])
  {
    assert files[j..][0] == files[j];
    assert files[j..][1..] == files[j + 1..];
  }

  /** What one more `delete_files([token])` call of the first pass adds to the state. */
  lemma FirstPassStep(tokens0: seq<Token>, files0: seq<File>, ce: seq<Token>, k: int, now: int)
    requires 0 <= k < |ce|
    ensures TokenIds([ce[k]]) == [ce[k].id]
    ensures MarkFilesDeleted(MarkFilesDeleted(files0, TokenIds(ce[..k]), now), [ce[k].id], now)
         == MarkFilesDeleted(files0, TokenIds(ce[..k + 1]), now)
    ensures MarkTokensDeleted(MarkTokensDeleted(tokens0, TokenIds(ce[..k]), now), [ce[k].id], now)
         == MarkTokensDeleted(tokens0, TokenIds(ce[..k + 1]), now)
    ensures DeletedCount(MarkFilesDeleted(files0, TokenIds(ce[..k]), now), [ce[k]])
         == |FilesOf(files0, ce[k].id)|
    ensures DeletedCount(files0, ce[..k + 1]) == DeletedCount(files0, ce[..k]) + |FilesOf(files0, ce[k].id)|
    ensures FilePathsOf(files0, TokenIds(ce[..k + 1]))
         == FilePathsOf(files0, TokenIds(ce[..k])) + FilePathsOf(files0, [ce[k].id])
  {
    TokenIdsStep(ce, k);
    MarkFilesDeletedStep(files0, TokenIds(ce[..k]), ce[k].id, now);
    MarkTokensDeletedStep(tokens0, TokenIds(ce[..k]), ce[k].id, now);
    MarkFilesDeletedKeepsCount(files0, TokenIds(ce[..k]), now, ce[k].id);
    assert [ce[k]][..0] == [];
    DeletedCountStep(files0, ce, k);
  }

  /** First-pass state after the tokens `ce[..k]` went through `delete_files`. */
  ghost predicate FirstPassState(store: Store, tokens0: seq<Token>, files0: seq<File>,
                                 ce: seq<Token>, k: int, now: int)
    reads store
    requires 0 <= k <= |ce|
  {
    && store.files == MarkFilesDeleted(files0, TokenIds(ce[..k]), now)
    && store.tokens == MarkTokensDeleted(tokens0, TokenIds(ce[..k]), now)
  }

  /** Every directory the run removed is a token directory. */
  ghost predicate OnlyTokenDirsRemoved(before: set<Path>, after: set<Path>, root: Path) {
    && after <= before
    && forall d :: d in before - after ==> |d| == |root| + 1 && d[..|root|] == root
  }

  function PathsOf(files: seq<File>): set<Path> {
    set f | f in files :: f.path
  }

  /** Inner loop of the first pass: remove each file, then try the token directory after each one. */
  method RemoveTokenFiles(disk: Disk, dir: Path, files: seq<File>) returns (r: Result<(), IoError>)
    modifies disk
    ensures var run := TokenFilesRun(old(disk.State()), disk.broken, dir, files);
      r == run.result && disk.State() == run.state
    ensures r.Ok? ==> disk.files == old(disk.files) - PathsOf(files)
    ensures r.Ok? && files != [] ==> dir !in disk.dirs
    ensures disk.files.Keys <= old(disk.files.Keys)
    ensures disk.dirs <= old(disk.dirs) && old(disk.dirs) - disk.dirs <= {dir}
  {
    ghost var run := TokenFilesRun(disk.State(), disk.broken, dir, files);
    var j := 0;
    while j < |files|
      invariant 0 <= j <= |files|
      invariant TokenFilesRun(disk.State(), disk.broken, dir, files[j..]) == run
    {
      TokenFilesRunStep(disk.State(), disk.broken, dir, files, j);
      var removed := disk.RemoveFile(files[j].path);
      if removed.Err? && removed.error != NotFound {
        return Err(removed.error);
      }
      var dirRemoved := RemoveTokenDir(disk, dir);
      if dirRemoved.Err? {
        return Err(dirRemoved.error);
      }
      j := j + 1;
    }
    r := Ok(());
  }

  lemma OnlyTokenDirsStep(a: set<Path>, b: set<Path>, c: set<Path>, root: Path, p: string)
    requires OnlyTokenDirsRemoved(a, b, root)
    requires c <= b && b - c <= {TokenDir(root, p)}
    ensures OnlyTokenDirsRemoved(a, c, root)
  {
    forall d | d in a - c ensures |d| == |root| + 1 && d[..|root|] == root {
      if d !in a - b {
        assert d in b - c;
        assert d in {TokenDir(root, p)};
      }
    }
  }

  lemma OnlyTokenDirsTrans(a: set<Path>, b: set<Path>, c: set<Path>, root: Path)
    requires OnlyTokenDirsRemoved(a, b, root) && OnlyTokenDirsRemoved(b, c, root)
    ensures OnlyTokenDirsRemoved(a, c, root)
  {
  }

  /** The outcome of a pass over several tokens, the index of the token it stopped at and the state it leaves. */
  datatype PassRun = PassRun(result: Result<(), IoError>, k: nat, state: DiskState)

  /**
   * The file removals of the first pass from state `s`: the inner loop for
   * each token in turn, in its directory under `root`; the first token whose
   * inner loop fails ends the pass, at that token's index.
   */
  function FirstPassRun(s: DiskState, broken: set<Path>, root: Path, todo: seq<(Token, seq<File>)>): (run: PassRun)
    ensures run.result.Ok? ==> run.k == |todo|
    ensures run.result.Err? ==> run.k < |todo| && run.result.error == Other
    ensures run.result.Ok? ==> run.state.files == s.files - TodoPaths(todo)
    ensures run.result.Ok? ==> forall e :: e in todo && e.1 != [] ==> TokenDir(root, e.0.path) !in run.state.dirs
    ensures run.state.files.Keys <= s.files.Keys && OnlyTokenDirsRemoved(s.dirs, run.state.dirs, root)
    decreases |todo|
  {
    if todo == [] then PassRun(Ok(()), 0, s)
    else
      var t := TokenFilesRun(s, broken, TokenDir(root, todo[0].0.path), todo[0].1);
      OnlyTokenDirsStep(s.dirs, s.dirs, t.state.dirs, root, todo[0].0.path);
      if t.result.Err? then PassRun(t.result, 0, t.state)
      else
        var rest := FirstPassRun(t.state, broken, root, todo[1..]);
        OnlyTokenDirsTrans(s.dirs, t.state.dirs, rest.state.dirs, root);
        TodoPathsCons(todo);
        assert forall e :: e in todo <==> e == todo[0] || e in todo[1..];
        PassRun(rest.result, rest.k + 1, rest.state)
  }

  /** Disk paths of every file listed for the first pass. */
  function TodoPaths(todo: seq<(Token, seq<File>)>): set<Path> {
    set e, f | e in todo && f in e.1 :: f.path
  }

  lemma TodoPathsCons(todo: seq<(Token, seq<File>)>)
    requires todo != []
    ensures TodoPaths(todo) == PathsOf(todo[0].1) + TodoPaths(todo[1..])
  {
    assert forall e :: e in todo <==> e == todo[0] || e in todo[1..];
  }

  /** The files `get_expired_files` lists are those of the content-expired tokens. */
  lemma TodoPathsOfExpired(tokens: seq<Token>, files: seq<File>, now: int)
    ensures TodoPaths(ExpiredFiles(tokens, files, now)) == FilePathsOf(files, ExpiredIds(tokens, now))
  {
    var todo := ExpiredFiles(tokens, files, now);
    var ce := ContentExpiredTokens(tokens, now);
    var ids := ExpiredIds(tokens, now);
    forall p | p in TodoPaths(todo) ensures p in FilePathsOf(files, ids) {
      var e, f :| e in todo && f in e.1 && f.path == p;
      var i :| 0 <= i < |todo| && todo[i] == e;
      assert ids[i] == ce[i].id;
    }
    forall p | p in FilePathsOf(files, ids) ensures p in TodoPaths(todo) {
      var f :| f in files && f.tokenId in ids && f.path == p;
      var i :| 0 <= i < |ids| && ids[i] == f.tokenId;
      assert f in todo[i].1;
    }
  }

  /** `run` is what the first pass gives when its tokens from `i` on are handled from state `s`. */
  ghost predicate FirstPassReaches(run: PassRun, s: DiskState, broken: set<Path>, root: Path,
                                   todo: seq<(Token, seq<File>)>, i: int)
    requires 0 <= i <= |todo|
  {
    var rest := FirstPassRun(s, broken, root, todo[i..]);
    run == PassRun(rest.result, rest.k + i, rest.state)
  }

  /** Token `i` succeeds in its inner loop: the pass goes on from the state that loop leaves. */
  lemma FirstPassAdvance(run: PassRun, s: DiskState, broken: set<Path>, root: Path, todo: seq<(Token, seq<File>)>, i: int)
    requires 0 <= i < |todo| && FirstPassReaches(run, s, broken, root, todo, i)
    requires TokenFilesRun(s, broken, TokenDir(root, todo[i].0.path), todo[i].1).result.Ok?
    ensures FirstPassReaches(run, TokenFilesRun(s, broken, TokenDir(root, todo[i].0.path), todo[i].1).state,
                             broken, root, todo, i + 1)
  {
    assert todo[i..][0] == todo[i];
    assert todo[i..][1..] == todo[i + 1..];
  }

  /** Token `i` fails in its inner loop: the pass ends there with that error. */
  lemma FirstPassStops(run: PassRun, s: DiskState, broken: set<Path>, root: Path, todo: seq<(Token, seq<File>)>, i: int)
    requires 0 <= i < |todo| && FirstPassReaches(run, s, broken, root, todo, i)
    requires TokenFilesRun(s, broken, TokenDir(root, todo[i].0.path), todo[i].1).result.Err?
    ensures var t := TokenFilesRun(s, broken, TokenDir(root, todo[i].0.path), todo[i].1);
      run == PassRun(t.result, i, t.state)
  {
    assert todo[i..][0] == todo[i];
  }

  /** With every token handled the pass has succeeded in the current state. */
  lemma FirstPassDone(run: PassRun, s: DiskState, broken: set<Path>, root: Path, todo: seq<(Token, seq<File>)>)
    requires FirstPassReaches(run, s, broken, root, todo, |todo|)
    ensures run == PassRun(Ok(()), |todo|, s)
  {
    assert todo[|todo|..] == [];
  }

  /**
   * The first token of the pass has two files present in its directory: the
   * pass stops at that token with an error other than NotFound, the second
   * file still on disk.
   */
  lemma FirstPassSiblingStops(s: DiskState, broken: set<Path>, root: Path, todo: seq<(Token, seq<File>)>)
    requires todo != []
    requires var files, dir := todo[0].1, TokenDir(root, todo[0].0.path);
      && |files| >= 2 && files[0].path != files[1].path
      && files[0].path in s.files && files[0].path !in s.dirs && files[0].path !in broken
      && files[1].path in s.files && IsChild(dir, files[1].path)
      && dir in s.dirs && dir !in s.files && dir !in broken
    ensures var run := FirstPassRun(s, broken, root, todo);
      run.result == Err(Other) && run.k == 0 && todo[0].1[1].path in run.state.files
  {
    TokenFilesSiblingStops(s, broken, TokenDir(root, todo[0].0.path), todo[0].1);
  }

  /** Every file and every token directory already gone: the pass succeeds and changes nothing. */
  lemma {:induction false} FirstPassAlreadyGone(s: DiskState, broken: set<Path>, root: Path, todo: seq<(Token, seq<File>)>)
    requires forall e, f :: e in todo && f in e.1 ==> f.path !in s.files && f.path !in s.dirs && f.path !in broken
    requires forall e :: e in todo ==> var dir := TokenDir(root, e.0.path);
      dir !in s.dirs && dir !in s.files && dir !in broken
    ensures FirstPassRun(s, broken, root, todo) == PassRun(Ok(()), |todo|, s)
    decreases |todo|
  {
    if todo != [] {
      assert todo[0] in todo;
      TokenFilesAlreadyGone(s, broken, TokenDir(root, todo[0].0.path), todo[0].1);
      assert forall e :: e in todo[1..] ==> e in todo;
      FirstPassAlreadyGone(s, broken, root, todo[1..]);
    }
  }

  /** First pass of `cleanup_once`; on an error, `k` is the token it stopped at. */
  method FirstPass(store: Store, disk: Disk, root: Path, now: int) returns (r: Result<nat, IoError>, ghost k: nat)
    requires store.Valid()
    modifies store, disk
    ensures store.Valid()
    ensures var run := FirstPassRun(old(disk.State()), disk.broken, root, ExpiredFiles(old(store.tokens), old(store.files), now));
      (r.Err? <==> run.result.Err?) && (r.Err? ==> r.error == run.result.error) &&
      k == run.k && disk.State() == run.state
    ensures var ce := ContentExpiredTokens(old(store.tokens), now);
      && k <= |ce|
      && (r.Ok? <==> k == |ce|)
      && FirstPassState(store, old(store.tokens), old(store.files), ce, k, now)
      && (r.Ok? ==> r.value == DeletedCount(old(store.files), ce))
      && (r.Ok? ==> disk.files == old(disk.files) - FilePathsOf(old(store.files), TokenIds(ce)))
      && (r.Ok? ==> forall t :: t in ce && FilesOf(old(store.files), t.id) != [] ==> TokenDir(root, t.path) !in disk.dirs)
    ensures disk.files.Keys <= old(disk.files.Keys)
    ensures OnlyTokenDirsRemoved(old(disk.dirs), disk.dirs, root)
  {
    ghost var tokens0, files0 := store.tokens, store.files;
    ghost var ce := ContentExpiredTokens(tokens0, now);
    var stuffToDel := store.GetExpiredFiles(now);
    ghost var run := FirstPassRun(disk.State(), disk.broken, root, stuffToDel);
    var n := 0;
    var i := 0;
    assert ce[..0] == [];
    assert stuffToDel[0..] == stuffToDel;
    while i < |stuffToDel|
      invariant 0 <= i <= |stuffToDel| == |ce|
      invariant FirstPassReaches(run, disk.State(), disk.broken, root, stuffToDel, i)
      invariant store.Valid()
      invariant FirstPassState(store, tokens0, files0, ce, i, now)
      invariant n == DeletedCount(files0, ce[..i])
    {
      var token := stuffToDel[i].0;
      var files := stuffToDel[i].1;
      assert token == ce[i] && files == FilesOf(files0, ce[i].id);
      ghost var before := disk.State();
      var removed := RemoveTokenFiles(disk, TokenDir(root, token.path), files);
      if removed.Err? {
        FirstPassStops(run, before, disk.broken, root, stuffToDel, i);
        return Err(removed.error), i;
      }
      FirstPassAdvance(run, before, disk.broken, root, stuffToDel, i);
      FirstPassStep(tokens0, files0, ce, i, now);
      var c := store.DeleteFiles([token], now);
      n := n + c;
      i := i + 1;
    }
    assert ce[..i] == ce;
    FirstPassDone(run, disk.State(), disk.broken, root, stuffToDel);
    TodoPathsOfExpired(tokens0, files0, now);
    ExpiredFilesSpec(tokens0, files0, now);
    r, k := Ok(n), i;
  }

  /**
   * The directory removals of the second pass from state `s`: one
   * `remove_token_dir` per returned path, in order; the first error ends the
   * pass.
   */
  function DirsRun(s: DiskState, broken: set<Path>, root: Path, paths: seq<string>): (run: DiskRun)
    ensures run.result.Err? ==> run.result.error == Other
    ensures run.state.files == s.files
    ensures OnlyTokenDirsRemoved(s.dirs, run.state.dirs, root)
    ensures run.result.Ok? ==> forall p :: p in paths ==> TokenDir(root, p) !in run.state.dirs
    decreases |paths|
  {
    if paths == [] then DiskRun(Ok(()), s)
    else
      var dir := TokenDir(root, paths[0]);
      var removed := TokenDirResult(s, broken, dir);
      if removed.Err? then DiskRun(removed, s)
      else
        var s1 := AfterRemoveDir(s, broken, dir);
        var rest := DirsRun(s1, broken, root, paths[1..]);
        OnlyTokenDirsStep(s.dirs, s.dirs, s1.dirs, root, paths[0]);
        OnlyTokenDirsTrans(s.dirs, s1.dirs, rest.state.dirs, root);
        assert forall p :: p in paths ==> p == paths[0] || p in paths[1..];
        rest
  }

  /** One directory of the second pass, seen from the suffix still to go. */
  lemma DirsRunStep(s: DiskState, broken: set<Path>, root: Path, paths: seq<string>, i: int)
    requires 0 <= i < |paths|
    ensures var dir := TokenDir(root, paths[i]);
      DirsRun(s, broken, root, paths[i..]) ==
        if TokenDirResult(s, broken, dir).Err? then DiskRun(TokenDirResult(s, broken, dir), s)
        else DirsRun(AfterRemoveDir(s, broken, dir), broken, root, paths[i + 1..])
  {
    assert paths[i..][0] == paths[i];
    assert paths[i..][1..] == paths[i + 1..];
  }

  /**
   * Nothing in the way: every token directory to remove is either gone or
   * empty, and none is broken or a file. Then the second pass succeeds.
   */
  lemma {:induction false} DirsRunClean(s: DiskState, broken: set<Path>, root: Path, paths: seq<string>)
    requires forall p :: p in paths ==> var dir := TokenDir(root, p);
      dir !in broken && dir !in s.files && (dir in s.dirs ==> !HasEntries(s, dir))
    ensures DirsRun(s, broken, root, paths).result == Ok(())
    decreases |paths|
  {
    if paths != [] {
      assert paths[0] in paths;
      var s1 := AfterRemoveDir(s, broken, TokenDir(root, paths[0]));
      forall p | p in paths[1..]
        ensures var dir := TokenDir(root, p); dir !in broken && dir !in s1.files && (dir in s1.dirs ==> !HasEntries(s1, dir))
      {
        assert p in paths;
      }
      DirsRunClean(s1, broken, root, paths[1..]);
    }
  }

  /** Second pass of `cleanup_once`. */
  method SecondPass(store: Store, disk: Disk, root: Path, now: int) returns (r: Result<(), IoError>)
    requires store.Valid()
    modifies store, disk
    ensures store.Valid() && store.files == old(store.files)
    ensures store.tokens == ExpireRows(old(store.tokens), now)
    ensures var run := DirsRun(old(disk.State()), disk.broken, root, ExpiredPaths(old(store.tokens), now));
      r == run.result && disk.State() == run.state
    ensures disk.files == old(disk.files)
    ensures r.Ok? ==> forall p :: p in ExpiredPaths(old(store.tokens), now) ==> TokenDir(root, p) !in disk.dirs
    ensures OnlyTokenDirsRemoved(old(disk.dirs), disk.dirs, root)
  {
    var delToken := store.DeleteExpiredTokens(now);
    ghost var run := DirsRun(disk.State(), disk.broken, root, delToken);
    var i := 0;
    assert delToken[0..] == delToken;
    while i < |delToken|
      modifies disk
      invariant 0 <= i <= |delToken|
      invariant DirsRun(disk.State(), disk.broken, root, delToken[i..]) == run
    {
      DirsRunStep(disk.State(), disk.broken, root, delToken, i);
      var dirRemoved := RemoveTokenDir(disk, TokenDir(root, delToken[i]));
      if dirRemoved.Err? {
        return Err(dirRemoved.error);
      }
      i := i + 1;
    }
    assert delToken[i..] == [];
    r := Ok(());
  }

  /**
   * `cleanup_once`. First pass: for each content-expired token, remove each of
   * its files (NotFound is skipped), trying the token directory after each
   * file, then `delete_files` for that token. Second pass, only if the first
   * succeeded: `delete_expired_tokens`, then one directory removal per
   * returned path. The Ok value is the file count the source logs.
   */
  method CleanupOnce(store: Store, disk: Disk, root: Path, now: int) returns (r: Result<nat, IoError>)
    requires store.Valid()
    modifies store, disk
    ensures store.Valid()
    ensures r.Ok? ==>
      && store.tokens == CleanedTokens(old(store.tokens), now)
      && store.files == CleanedFiles(old(store.tokens), old(store.files), now)
      && r.value == DeletedCount(old(store.files), ContentExpiredTokens(old(store.tokens), now))
      && disk.files == old(disk.files) - FilePathsOf(old(store.files), ExpiredIds(old(store.tokens), now))
      && (forall p :: p in SecondPassPaths(old(store.tokens), now) ==> TokenDir(root, p) !in disk.dirs)
      && (forall t :: t in ContentExpiredTokens(old(store.tokens), now) && FilesOf(old(store.files), t.id) != [] ==>
            TokenDir(root, t.path) !in disk.dirs)
    ensures r.Err? ==>
      || (exists k :: 0 <= k < |ContentExpiredTokens(old(store.tokens), now)| &&
            FirstPassState(store, old(store.tokens), old(store.files), ContentExpiredTokens(old(store.tokens), now), k, now))
      || (store.tokens == CleanedTokens(old(store.tokens), now) &&
          store.files == CleanedFiles(old(store.tokens), old(store.files), now))
    ensures var first := FirstPassRun(old(disk.State()), disk.broken, root, ExpiredFiles(old(store.tokens), old(store.files), now));
      var second := DirsRun(first.state, disk.broken, root, SecondPassPaths(old(store.tokens), now));
      && (first.result.Err? ==> r == Err(first.result.error) && disk.State() == first.state)
      && (first.result.Ok? ==> (r.Err? <==> second.result.Err?) && disk.State() == second.state)
      && (r.Err? ==> r.error == Other)
    ensures disk.files.Keys <= old(disk.files.Keys)
    ensures OnlyTokenDirsRemoved(old(disk.dirs), disk.dirs, root)
  {
    ghost var ce := ContentExpiredTokens(store.tokens, now);
    var first, k := FirstPass(store, disk, root, now);
    if first.Err? {
      return Err(first.error);
    }
    assert ce[..k] == ce;
    var second := SecondPass(store, disk, root, now);
    if second.Err? {
      return Err(second.error);
    }
    r := Ok(first.value);
  }
}
