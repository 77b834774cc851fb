/**
 * The metadata store: the `token` and `file` tables held in memory, with the
 * clock passed in as `now`. Queries are functions over a snapshot of the
 * tables; the transactions that insert or update rows are methods of `Store`.
 *
 * Tables are sequences in rowid order. The primary key is unique, and a new
 * row gets one more than the largest id present (SQLite's rowid rule for an
 * INTEGER PRIMARY KEY without AUTOINCREMENT).
 */
module Db {
  import opened Wrappers
  import opened Ints
  import opened Schema

  datatype DbError = TokenAlreadyExists(path: string)

  const SECONDS_PER_HOUR: int := 3600

  // ---------------------------------------------------------------------------
  // Deadlines. SQL comparisons against NULL are false.

  /** The filter of `create_token` and `get_valid_token`: a deadline not yet passed. No status test. */
  predicate IsLive(t: Token, now: int) {
    t.tokenExpiresAt >= now || (t.contentExpiresAt.Some? && t.contentExpiresAt.value >= now)
  }

  predicate LiveAt(t: Token, path: string, now: int) {
    t.path == path && IsLive(t, now)
  }

  /** The filter of `get_expired_files`. */
  predicate IsContentExpired(t: Token, now: int) {
    t.deletedAt.None? && t.contentExpiresAt.Some? && t.contentExpiresAt.value <= now
  }

  /** The filter of `delete_expired_tokens`. */
  predicate IsReapable(t: Token, now: int) {
    t.deletedAt.None? &&
    (t.tokenExpiresAt <= now || (t.contentExpiresAt.Some? && t.contentExpiresAt.value <= now))
  }

  /** A deadline equal to `now` is inside both the validity and the expiry window. */
  lemma DeadlineNowIsLiveAndReapable(t: Token, now: int)
    requires t.deletedAt.None? && t.tokenExpiresAt == now
    ensures IsLive(t, now) && IsReapable(t, now)
  {
  }

  // ---------------------------------------------------------------------------
  // Primary keys

  predicate TokenIdsUnique(tokens: seq<Token>) {
    forall i, j :: 0 <= i < j < |tokens| ==> tokens[i].id != tokens[j].id
  }

  predicate FileIdsUnique(files: seq<File>) {
    forall i, j :: 0 <= i < j < |files| ==> files[i].id != files[j].id
  }

  /** The largest id in the table, 0 when it is empty. */
  function MaxTokenId(tokens: seq<Token>): (m: int)
    ensures forall t :: t in tokens ==> t.id <= m
    ensures tokens != [] ==> exists t :: t in tokens && t.id == m
  {
    if tokens == [] then 0
    else
      var rest := MaxTokenId(tokens[1..]);
      if tokens[1..] == [] || tokens[0].id >= rest then tokens[0].id else rest
  }

  function MaxFileId(files: seq<File>): (m: int)
    ensures forall f :: f in files ==> f.id <= m
    ensures files != [] ==> exists f :: f in files && f.id == m
  {
    if files == [] then 0
    else
      var rest := MaxFileId(files[1..]);
      if files[1..] == [] || files[0].id >= rest then files[0].id else rest
  }

  /** `order(id.desc()).first()`: the row with the highest id. */
  function HighestToken(tokens: seq<Token>): (t: Token)
    requires tokens != []
    ensures t in tokens
    ensures forall u :: u in tokens ==> u.id <= t.id
  {
    if |tokens| == 1 then tokens[0]
    else
      var rest := HighestToken(tokens[1..]);
      if tokens[0].id >= rest.id then tokens[0] else rest
  }

  function HighestFile(files: seq<File>): (f: File)
    requires files != []
    ensures f in files
    ensures forall g :: g in files ==> g.id <= f.id
  {
    if |files| == 1 then files[0]
    else
      var rest := HighestFile(files[1..]);
      if files[0].id >= rest.id then files[0] else rest
  }

  // ---------------------------------------------------------------------------
  // Token lookups

  /** `count_star` of the duplicate check in `create_token`. */
  function CountLive(tokens: seq<Token>, path: string, now: int): (n: nat)
    ensures n <= |tokens|
    ensures n == 0 <==> forall t :: t in tokens ==> !LiveAt(t, path, now)
  {
    if tokens == [] then 0
    else
      assert forall t :: t in tokens <==> t == tokens[0] || t in tokens[1..];
      (if LiveAt(tokens[0], path, now) then 1 else 0) + CountLive(tokens[1..], path, now)
  }

  /** `get_valid_token`: the first row, in rowid order, with that path and a deadline not passed. */
  function GetValidToken(tokens: seq<Token>, path: string, now: int): (r: Option<Token>)
    ensures r.Some? ==> r.value in tokens && LiveAt(r.value, path, now)
    ensures r.None? <==> forall t :: t in tokens ==> !LiveAt(t, path, now)
    ensures r.Some? ==> exists i :: 0 <= i < |tokens| && tokens[i] == r.value &&
                                    forall j :: 0 <= j < i ==> !LiveAt(tokens[j], path, now)
  {
    if tokens == [] then None
    else if LiveAt(tokens[0], path, now) then Some(tokens[0])
    else
      var r := GetValidToken(tokens[1..], path, now);
      if r.Some? then FirstLiveShift(tokens, path, now, r.value); r else r
  }

  /** A first live match in the tail is the first live match of the whole table when the head does not match. */
  lemma FirstLiveShift(tokens: seq<Token>, path: string, now: int, t: Token)
    requires tokens != [] && !LiveAt(tokens[0], path, now)
    requires exists i :: 0 <= i < |tokens[1..]| && tokens[1..][i] == t &&
                         forall j :: 0 <= j < i ==> !LiveAt(tokens[1..][j], path, now)
    ensures exists i :: 0 <= i < |tokens| && tokens[i] == t &&
                        forall j :: 0 <= j < i ==> !LiveAt(tokens[j], path, now)
  {
    var i :| 0 <= i < |tokens[1..]| && tokens[1..][i] == t &&
             forall j :: 0 <= j < i ==> !LiveAt(tokens[1..][j], path, now);
    assert tokens[i + 1] == t;
    forall j | 0 <= j < i + 1 ensures !LiveAt(tokens[j], path, now) {
      if j > 0 { assert tokens[j] == tokens[1..][j - 1]; }
    }
  }

  /** The duplicate check and `get_valid_token` use the same predicate. */
  lemma {:induction false} CountLiveIffValid(tokens: seq<Token>, path: string, now: int)
    ensures CountLive(tokens, path, now) > 0 <==> GetValidToken(tokens, path, now).Some?
  {
    if tokens != [] {
      CountLiveIffValid(tokens[1..], path, now);
    }
  }

  /** A Deleted row is found by `get_valid_token` while one of its deadlines is not yet passed. */
  lemma DeletedTokenCanBeValid(tokens: seq<Token>, path: string, now: int)
    requires tokens != [] && tokens[0].path == path && tokens[0].status == Deleted
    requires tokens[0].contentExpiresAt == Some(now)
    ensures GetValidToken(tokens, path, now) == Some(tokens[0])
    ensures GetValidToken(tokens, path, now).value.status == Deleted
  {
  }

  // ---------------------------------------------------------------------------
  // Token rows written by transactions

  /** `Duration::num_hours`: whole hours, truncated toward zero. */
  function NumHours(seconds: int): (h: int)
    ensures seconds >= 0 ==> 0 <= seconds - h * SECONDS_PER_HOUR < SECONDS_PER_HOUR
    ensures seconds < 0 ==> 0 <= h * SECONDS_PER_HOUR - seconds < SECONDS_PER_HOUR
  {
    if seconds >= 0 then seconds / SECONDS_PER_HOUR else -((-seconds) / SECONDS_PER_HOUR)
  }

  /** The row `create_token` inserts; the u32 size and the hour count are cast to i32. */
  function NewTokenRow(tokens: seq<Token>, spec: CreateToken, now: int): (r: Token)
    ensures forall t :: t in tokens ==> t.id < r.id
    ensures IsLive(r, now) <==> spec.tokenExpiresAt >= now
    ensures forall later :: !IsContentExpired(r, later)
    ensures forall later :: IsReapable(r, later) <==> spec.tokenExpiresAt <= later
  {
    Token(
      id := MaxTokenId(tokens) + 1,
      path := spec.path,
      status := Fresh,
      maxSizeInMib := spec.maxSizeInMib.Map((s: nat) => WrapI32(s)),
      createdAt := now,
      tokenExpiresAt := spec.tokenExpiresAt,
      contentExpiresAt := None,
      contentExpiresAfterHours := spec.contentExpiresAfter.Map((d: int) => WrapI32(NumHours(d))),
      deletedAt := None)
  }

  /** What the inserted row records, and that it is the one the re-read finds. */
  lemma NewTokenRowFacts(tokens: seq<Token>, spec: CreateToken, now: int)
    requires TokenIdsUnique(tokens)
    ensures var t := NewTokenRow(tokens, spec, now);
      && t.status == Fresh && t.contentExpiresAt.None? && t.deletedAt.None?
      && t.path == spec.path && t.tokenExpiresAt == spec.tokenExpiresAt && t.createdAt == now
      && (spec.contentExpiresAfter.Some? <==> t.contentExpiresAfterHours.Some?)
      && (spec.contentExpiresAfter.Some? && InI32(NumHours(spec.contentExpiresAfter.value)) ==>
            t.contentExpiresAfterHours.value == NumHours(spec.contentExpiresAfter.value))
      && (spec.maxSizeInMib.Some? && spec.maxSizeInMib.value <= I32_MAX ==>
            t.maxSizeInMib == Some(spec.maxSizeInMib.value))
      && TokenIdsUnique(tokens + [t])
      && HighestToken(tokens + [t]) == t
  {
    var t := NewTokenRow(tokens, spec, now);
    var ts := tokens + [t];
    forall i, j | 0 <= i < j < |ts| ensures ts[i].id != ts[j].id {
      if j == |tokens| { assert ts[i] in tokens; }
    }
  }

  /** The row after `consume_token`: only `status` and `content_expires_at` are written. */
  function ConsumedRow(row: Token, tok: Token, now: int): Token {
    row.(status := Used,
         contentExpiresAt := tok.contentExpiresAfterHours.Map((h: int) => now + h * SECONDS_PER_HOUR))
  }

  /** `consume_token`: update the row whose id is `tok.id`, from the caller's copy of the hours. */
  function ConsumeRows(tokens: seq<Token>, tok: Token, now: int): (r: seq<Token>)
    ensures |r| == |tokens|
    ensures forall i :: 0 <= i < |r| ==> r[i].id == tokens[i].id && r[i].path == tokens[i].path
    ensures TokenIdsUnique(tokens) ==> TokenIdsUnique(r)
    ensures forall i :: 0 <= i < |r| ==>
      (tokens[i].id == tok.id && tok.contentExpiresAfterHours.Some? && tok.contentExpiresAfterHours.value >= 0
       ==> IsLive(r[i], now))
  {
    seq(|tokens|, i requires 0 <= i < |tokens| =>
      if tokens[i].id == tok.id then ConsumedRow(tokens[i], tok, now) else tokens[i])
  }

  /**
   * Consuming touches one row, the one with `tok.id`, and in that row only the
   * status and the content deadline; it does so whatever the row's status was.
   */
  lemma ConsumeRowsEffect(tokens: seq<Token>, tok: Token, now: int, i: int)
    requires 0 <= i < |tokens|
    ensures |ConsumeRows(tokens, tok, now)| == |tokens|
    ensures var r := ConsumeRows(tokens, tok, now)[i];
      if tokens[i].id == tok.id then
        && r.status == Used
        && r.contentExpiresAt == (if tok.contentExpiresAfterHours.None? then None
                                  else Some(now + tok.contentExpiresAfterHours.value * 3600))
        && r.(status := tokens[i].status, contentExpiresAt := tokens[i].contentExpiresAt) == tokens[i]
      else r == tokens[i]
  {
  }

  /** A second consumption at a later time moves the content deadline again. */
  lemma ConsumeOverwritesDeadline(tokens: seq<Token>, tok: Token, now: int, later: int, i: int)
    requires 0 <= i < |tokens| && tokens[i].id == tok.id
    requires tok.contentExpiresAfterHours.Some? && now < later
    ensures ConsumeRows(ConsumeRows(tokens, tok, now), tok, later)[i].contentExpiresAt
         != ConsumeRows(tokens, tok, now)[i].contentExpiresAt
  {
  }

  /** `delete_expired_tokens` update: every reapable row becomes Deleted at `now`. */
  function ExpireRows(tokens: seq<Token>, now: int): (r: seq<Token>)
    ensures |r| == |tokens|
    ensures forall i :: 0 <= i < |r| ==> r[i].id == tokens[i].id && r[i].path == tokens[i].path
    ensures TokenIdsUnique(tokens) ==> TokenIdsUnique(r)
    ensures forall i :: 0 <= i < |r| ==> !IsReapable(r[i], now) && !IsContentExpired(r[i], now)
    ensures forall i :: 0 <= i < |r| && !IsReapable(tokens[i], now) ==> r[i] == tokens[i]
  {
    seq(|tokens|, i requires 0 <= i < |tokens| =>
      if IsReapable(tokens[i], now) then tokens[i].(status := Deleted, deletedAt := Some(now))
      else tokens[i])
  }

  /** `delete_expired_tokens` result: the paths of the reapable rows, in rowid order. */
  function ExpiredPaths(tokens: seq<Token>, now: int): (r: seq<string>)
    ensures forall p :: p in r <==> exists t :: t in tokens && IsReapable(t, now) && t.path == p
    ensures (forall t :: t in tokens ==> !IsReapable(t, now)) ==> r == []
  {
    if tokens == [] then []
    else
      var rest := ExpiredPaths(tokens[1..], now);
      assert forall t :: t in tokens <==> t == tokens[0] || t in tokens[1..];
      if IsReapable(tokens[0], now) then [tokens[0].path] + rest else rest
  }

  /** After `delete_expired_tokens`, nothing is reapable: a second call at the same `now` returns nothing and changes nothing. */
  lemma ExpireRowsIdempotent(tokens: seq<Token>, now: int)
    ensures forall t :: t in ExpireRows(tokens, now) ==> !IsReapable(t, now)
    ensures ExpiredPaths(ExpireRows(tokens, now), now) == []
    ensures ExpireRows(ExpireRows(tokens, now), now) == ExpireRows(tokens, now)
  {
    var e := ExpireRows(tokens, now);
    assert forall t :: t in e ==> !IsReapable(t, now) by {
      forall t | t in e ensures !IsReapable(t, now) {
        var i :| 0 <= i < |e| && e[i] == t;
      }
    }
  }

  /** Row ids used in the `delete_files` loop. */
  function TokenIds(toks: seq<Token>): (ids: seq<int>)
    ensures |ids| == |toks|
    ensures forall i :: 0 <= i < |toks| ==> ids[i] == toks[i].id
  {
    seq(|toks|, i requires 0 <= i < |toks| => toks[i].id)
  }

  /** `delete_files`, token side: each listed id becomes Deleted at `now`. */
  function MarkTokensDeleted(tokens: seq<Token>, ids: seq<int>, now: int): (r: seq<Token>)
    ensures |r| == |tokens|
    ensures forall i :: 0 <= i < |r| ==> r[i].id == tokens[i].id && r[i].path == tokens[i].path
    ensures TokenIdsUnique(tokens) ==> TokenIdsUnique(r)
    ensures forall i :: 0 <= i < |r| ==> (r[i].deletedAt.None? <==> tokens[i].deletedAt.None? && tokens[i].id !in ids)
    ensures forall i, later :: 0 <= i < |r| && tokens[i].id in ids ==>
      !IsReapable(r[i], later) && !IsContentExpired(r[i], later)
  {
    seq(|tokens|, i requires 0 <= i < |tokens| =>
      if tokens[i].id in ids then tokens[i].(status := Deleted, deletedAt := Some(now)) else tokens[i])
  }

  /** `delete_files`, file side: every file of a listed token gets `deleted_at = now`. */
  function MarkFilesDeleted(files: seq<File>, ids: seq<int>, now: int): (r: seq<File>)
    ensures |r| == |files|
    ensures forall i :: 0 <= i < |r| ==> r[i].(deletedAt := files[i].deletedAt) == files[i]
    ensures FileIdsUnique(files) ==> FileIdsUnique(r)
    ensures forall i :: 0 <= i < |r| ==> (r[i].deletedAt.None? <==> files[i].deletedAt.None? && files[i].tokenId !in ids)
  {
    seq(|files|, i requires 0 <= i < |files| =>
      if files[i].tokenId in ids then files[i].(deletedAt := Some(now)) else files[i])
  }

  // ---------------------------------------------------------------------------
  // File lookups

  /** `File::belonging_to(token)`: every row of that token, whatever its status or deletion. */
  function FilesOf(files: seq<File>, tokenId: int): (r: seq<File>)
    ensures forall f :: f in r <==> f in files && f.tokenId == tokenId
    ensures |r| <= |files|
  {
    if files == [] then []
    else
      var rest := FilesOf(files[1..], tokenId);
      assert forall f :: f in files <==> f == files[0] || f in files[1..];
      if files[0].tokenId == tokenId then [files[0]] + rest else rest
  }

  /** `get_files`: the token's Completed rows. Rows with `deleted_at` set are not filtered out. */
  function GetFiles(files: seq<File>, token: Token): (r: seq<File>)
    ensures forall f :: f in r <==> f in files && f.tokenId == token.id && f.uploadStatus == Completed
  {
    if files == [] then []
    else
      var rest := GetFiles(files[1..], token);
      assert forall f :: f in files <==> f == files[0] || f in files[1..];
      if files[0].tokenId == token.id && files[0].uploadStatus == Completed then [files[0]] + rest
      else rest
  }

  predicate OwnedFile(f: File, token: Token, fileId: int) {
    f.id == fileId && f.tokenId == token.id
  }

  /** `get_file`: the row with that id if it belongs to the token, in any upload status. */
  function GetFile(files: seq<File>, token: Token, fileId: int): (r: Option<File>)
    ensures r.Some? ==> r.value in files && OwnedFile(r.value, token, fileId)
    ensures r.None? <==> forall f :: f in files ==> !OwnedFile(f, token, fileId)
  {
    if files == [] then None
    else if OwnedFile(files[0], token, fileId) then Some(files[0])
    else
      assert forall f :: f in files <==> f == files[0] || f in files[1..];
      GetFile(files[1..], token, fileId)
  }

  /** `get_file` may hand out a row whose upload never completed. */
  lemma GetFileIgnoresUploadStatus(files: seq<File>, token: Token, f: File)
    requires FileIdsUnique(files) && f in files && f.tokenId == token.id
    ensures GetFile(files, token, f.id) == Some(f)
  {
    var g := GetFile(files, token, f.id).value;
    var i :| 0 <= i < |files| && files[i] == f;
    var j :| 0 <= j < |files| && files[j] == g;
    if i != j {
      assert files[i].id == files[j].id;
    }
  }

  /** The file row `create_file` inserts. */
  function NewFileRow(files: seq<File>, spec: CreateFile, now: int): (r: File)
    ensures forall f :: f in files ==> f.id < r.id
    ensures forall tok: Token :: r !in GetFiles(files + [r], tok)
  {
    File(
      id := MaxFileId(files) + 1,
      tokenId := spec.tokenId,
      name := spec.name,
      path := spec.path,
      contentType := spec.contentType,
      sizeMib := None,
      createdAt := now,
      deletedAt := None,
      uploadStatus := Started)
  }

  lemma NewFileRowFacts(files: seq<File>, spec: CreateFile, now: int)
    requires FileIdsUnique(files)
    ensures var f := NewFileRow(files, spec, now);
      && f.uploadStatus == Started && f.sizeMib.None? && f.deletedAt.None?
      && f.tokenId == spec.tokenId && f.name == spec.name && f.path == spec.path
      && f.contentType == spec.contentType
      && FileIdsUnique(files + [f])
      && HighestFile(files + [f]) == f
  {
    var f := NewFileRow(files, spec, now);
    var fs := files + [f];
    forall i, j | 0 <= i < j < |fs| ensures fs[i].id != fs[j].id {
      if j == |files| { assert fs[i] in files; }
    }
  }

  /** `complete_upload`: the row with that id becomes Completed. */
  function CompleteRows(files: seq<File>, fileId: int): (r: seq<File>)
    ensures |r| == |files|
    ensures forall i :: 0 <= i < |r| ==> r[i].(uploadStatus := files[i].uploadStatus) == files[i]
    ensures FileIdsUnique(files) ==> FileIdsUnique(r)
    ensures forall i :: 0 <= i < |r| ==>
      (r[i].uploadStatus == Completed <==> files[i].uploadStatus == Completed || files[i].id == fileId)
  {
    seq(|files|, i requires 0 <= i < |files| =>
      if files[i].id == fileId then files[i].(uploadStatus := Completed) else files[i])
  }

  /** `abort_upload`: the row with that id is removed. */
  function AbortRows(files: seq<File>, fileId: int): (r: seq<File>)
    ensures forall f :: f in r <==> f in files && f.id != fileId
  {
    if files == [] then []
    else
      var rest := AbortRows(files[1..], fileId);
      assert forall f :: f in files <==> f == files[0] || f in files[1..];
      if files[0].id == fileId then rest else [files[0]] + rest
  }

  lemma HeadIdNotInTail(files: seq<File>)
    requires files != [] && FileIdsUnique(files)
    ensures FileIdsUnique(files[1..])
    ensures forall f :: f in files[1..] ==> f.id != files[0].id
  {
    var tail := files[1..];
    forall i, j | 0 <= i < j < |tail| ensures tail[i].id != tail[j].id {
      assert tail[i] == files[i + 1] && tail[j] == files[j + 1];
    }
    forall f | f in tail ensures f.id != files[0].id {
      var k :| 0 <= k < |tail| && tail[k] == f;
      assert files[k + 1] == f;
    }
  }

  lemma ConsUnique(x: File, rest: seq<File>)
    requires FileIdsUnique(rest) && forall f :: f in rest ==> f.id != x.id
    ensures FileIdsUnique([x] + rest)
  {
    var r := [x] + rest;
    forall i, j | 0 <= i < j < |r| ensures r[i].id != r[j].id {
      if i == 0 {
        assert r[j] in rest;
      } else {
        assert r[i] == rest[i - 1] && r[j] == rest[j - 1];
      }
    }
  }

  /** Removing a row keeps the primary key unique and removes one row when the id is present. */
  lemma {:induction false} AbortRowsUnique(files: seq<File>, fileId: int)
    requires FileIdsUnique(files)
    ensures FileIdsUnique(AbortRows(files, fileId))
    ensures |AbortRows(files, fileId)| == |files| - (if exists f :: f in files && f.id == fileId then 1 else 0)
  {
    if files != [] {
      var tail := files[1..];
      HeadIdNotInTail(files);
      AbortRowsUnique(tail, fileId);
      var rest := AbortRows(tail, fileId);
      assert forall f :: f in files <==> f == files[0] || f in tail;
      if files[0].id != fileId {
        ConsUnique(files[0], rest);
      }
    }
  }

  // ---------------------------------------------------------------------------
  // Reaper queries

  /** The tokens `get_expired_files` selects, in rowid order. */
  function ContentExpiredTokens(tokens: seq<Token>, now: int): (r: seq<Token>)
    ensures forall t :: t in r <==> t in tokens && IsContentExpired(t, now)
  {
    if tokens == [] then []
    else
      var rest := ContentExpiredTokens(tokens[1..], now);
      assert forall t :: t in tokens <==> t == tokens[0] || t in tokens[1..];
      if IsContentExpired(tokens[0], now) then [tokens[0]] + rest else rest
  }

  /** `get_expired_files`: each selected token paired with all of its file rows. */
  function ExpiredFiles(tokens: seq<Token>, files: seq<File>, now: int): (r: seq<(Token, seq<File>)>)
    ensures |r| == |ContentExpiredTokens(tokens, now)|
    ensures forall i :: 0 <= i < |r| ==>
      r[i].0 in tokens && IsContentExpired(r[i].0, now) &&
      forall f :: f in r[i].1 ==> f in files && f.tokenId == r[i].0.id
  {
    var ts := ContentExpiredTokens(tokens, now);
    seq(|ts|, i requires 0 <= i < |ts| => (ts[i], FilesOf(files, ts[i].id)))
  }

  /** The map `get_expired_files` returns holds exactly the content-expired, not yet deleted tokens. */
  lemma ExpiredFilesSpec(tokens: seq<Token>, files: seq<File>, now: int)
    ensures forall e :: e in ExpiredFiles(tokens, files, now) ==>
      e.0 in tokens && IsContentExpired(e.0, now) && e.1 == FilesOf(files, e.0.id)
    ensures forall t :: t in tokens && IsContentExpired(t, now) ==>
      (t, FilesOf(files, t.id)) in ExpiredFiles(tokens, files, now)
  {
    var ts := ContentExpiredTokens(tokens, now);
    var r := ExpiredFiles(tokens, files, now);
    forall t | t in tokens && IsContentExpired(t, now)
      ensures (t, FilesOf(files, t.id)) in r
    {
      var i :| 0 <= i < |ts| && ts[i] == t;
      assert r[i] == (t, FilesOf(files, t.id));
    }
    forall e | e in r
      ensures e.0 in tokens && IsContentExpired(e.0, now) && e.1 == FilesOf(files, e.0.id)
    {
      var i :| 0 <= i < |r| && r[i] == e;
      assert ts[i] in ts;
    }
  }

  /** `n` of `delete_files`: per listed token, its number of file rows, deleted or not. */
  function DeletedCount(files: seq<File>, toks: seq<Token>): nat {
    if toks == [] then 0
    else DeletedCount(files, toks[..|toks| - 1]) + |FilesOf(files, toks[|toks| - 1].id)|
  }

  /** Marking rows deleted does not change which rows belong to a token. */
  lemma {:induction false} MarkFilesDeletedKeepsCount(files: seq<File>, ids: seq<int>, now: int, tokenId: int)
    ensures |FilesOf(MarkFilesDeleted(files, ids, now), tokenId)| == |FilesOf(files, tokenId)|
  {
    if files != [] {
      var m := MarkFilesDeleted(files, ids, now);
      assert m[1..] == MarkFilesDeleted(files[1..], ids, now);
      assert m[0].tokenId == files[0].tokenId;
      MarkFilesDeletedKeepsCount(files[1..], ids, now, tokenId);
    }
  }

  /** Marking one more token's rows is marking the extended id list. */
  lemma MarkFilesDeletedStep(files: seq<File>, ids: seq<int>, id: int, now: int)
    ensures MarkFilesDeleted(MarkFilesDeleted(files, ids, now), [id], now) == MarkFilesDeleted(files, ids + [id], now)
  {
  }

  lemma MarkTokensDeletedStep(tokens: seq<Token>, ids: seq<int>, id: int, now: int)
    ensures MarkTokensDeleted(MarkTokensDeleted(tokens, ids, now), [id], now) == MarkTokensDeleted(tokens, ids + [id], now)
  {
  }

  lemma TokenIdsStep(toks: seq<Token>, i: int)
    requires 0 <= i < |toks|
    ensures TokenIds(toks[..i + 1]) == TokenIds(toks[..i]) + [toks[i].id]
  {
  }

  lemma DeletedCountStep(files: seq<File>, toks: seq<Token>, i: int)
    requires 0 <= i < |toks|
    ensures DeletedCount(files, toks[..i + 1]) == DeletedCount(files, toks[..i]) + |FilesOf(files, toks[i].id)|
  {
    assert toks[..i + 1][..i] == toks[..i];
  }

  lemma {:induction false} MarkFilesDeletedKeepsDeletedCount(files: seq<File>, ids: seq<int>, now: int, toks: seq<Token>)
    ensures DeletedCount(MarkFilesDeleted(files, ids, now), toks) == DeletedCount(files, toks)
  {
    if toks != [] {
      MarkFilesDeletedKeepsDeletedCount(files, ids, now, toks[..|toks| - 1]);
      MarkFilesDeletedKeepsCount(files, ids, now, toks[|toks| - 1].id);
    }
  }

  // ---------------------------------------------------------------------------
  // The store

  class Store {
    var tokens: seq<Token>
    var files: seq<File>

    ghost predicate Valid()
      reads this
    {
      TokenIdsUnique(tokens) && FileIdsUnique(files)
    }

    constructor ()
      ensures Valid() && tokens == [] && files == []
    {
      tokens := [];
      files := [];
    }

    /** `create_token`: refuse when a row with that path is live, else insert a Fresh row and re-read it. */
    method CreateToken(spec: CreateToken, now: int) returns (r: Result<Token, DbError>)
      requires Valid()
      modifies this
      ensures Valid() && files == old(files)
      ensures r.Err? <==> GetValidToken(old(tokens), spec.path, now).Some?
      ensures r.Err? ==> r.error == TokenAlreadyExists(spec.path) && tokens == old(tokens)
      ensures r.Ok? ==> r.value == NewTokenRow(old(tokens), spec, now) && tokens == old(tokens) + [r.value]
    {
      var existingCount := CountLive(tokens, spec.path, now);
      CountLiveIffValid(tokens, spec.path, now);
      if existingCount > 0 {
        return Err(TokenAlreadyExists(spec.path));
      }
      var row := NewTokenRow(tokens, spec, now);
      NewTokenRowFacts(tokens, spec, now);
      tokens := tokens + [row];
      var inserted := HighestToken(tokens);
      r := Ok(inserted);
    }

    /** `consume_token`. */
    method ConsumeToken(tok: Token, now: int)
      requires Valid()
      modifies this
      ensures Valid() && files == old(files)
      ensures tokens == ConsumeRows(old(tokens), tok, now)
    {
      tokens := ConsumeRows(tokens, tok, now);
    }

    /** `create_file`: insert a Started row and re-read it. */
    method CreateFile(spec: CreateFile, now: int) returns (f: File)
      requires Valid()
      modifies this
      ensures Valid() && tokens == old(tokens)
      ensures f == NewFileRow(old(files), spec, now) && files == old(files) + [f]
    {
      var row := NewFileRow(files, spec, now);
      NewFileRowFacts(files, spec, now);
      files := files + [row];
      f := HighestFile(files);
    }

    /** `complete_upload`. */
    method CompleteUpload(fileId: int)
      requires Valid()
      modifies this
      ensures Valid() && tokens == old(tokens)
      ensures files == CompleteRows(old(files), fileId)
    {
      files := CompleteRows(files, fileId);
    }

    /** `abort_upload`. */
    method AbortUpload(fileId: int)
      requires Valid()
      modifies this
      ensures Valid() && tokens == old(tokens)
      ensures files == AbortRows(old(files), fileId)
    {
      AbortRowsUnique(files, fileId);
      files := AbortRows(files, fileId);
    }

    /** `get_expired_files`: one query for the tokens, then one per token for its files. */
    method GetExpiredFiles(now: int) returns (result: seq<(Token, seq<File>)>)
      ensures result == ExpiredFiles(tokens, files, now)
    {
      var expiredTokens := ContentExpiredTokens(tokens, now);
      result := [];
      var i := 0;
      while i < |expiredTokens|
        invariant 0 <= i <= |expiredTokens|
        invariant result == ExpiredFiles(tokens, files, now)[..i]
      {
        var tok := expiredTokens[i];
        var expired := FilesOf(files, tok.id);
        result := result + [(tok, expired)];
        i := i + 1;
      }
    }

    /** `delete_expired_tokens`: select the reapable rows, mark them Deleted, return their paths. */
    method DeleteExpiredTokens(now: int) returns (paths: seq<string>)
      requires Valid()
      modifies this
      ensures Valid() && files == old(files)
      ensures tokens == ExpireRows(old(tokens), now)
      ensures paths == ExpiredPaths(old(tokens), now)
    {
      paths := ExpiredPaths(tokens, now);
      tokens := ExpireRows(tokens, now);
    }

    /** `delete_files`: per token, mark its files and itself deleted and add up the updated file rows. */
    method DeleteFiles(toks: seq<Token>, now: int) returns (count: nat)
      requires Valid()
      modifies this
      ensures Valid()
      ensures files == MarkFilesDeleted(old(files), TokenIds(toks), now)
      ensures tokens == MarkTokensDeleted(old(tokens), TokenIds(toks), now)
      ensures count == DeletedCount(old(files), toks)
    {
      count := 0;
      var i := 0;
      while i < |toks|
        invariant 0 <= i <= |toks|
        invariant Valid()
        invariant files == MarkFilesDeleted(old(files), TokenIds(toks[..i]), now)
        invariant tokens == MarkTokensDeleted(old(tokens), TokenIds(toks[..i]), now)
        invariant count == DeletedCount(old(files), toks[..i])
      {
        var tok := toks[i];
        MarkFilesDeletedKeepsCount(old(files), TokenIds(toks[..i]), now, tok.id);
        DeletedCountStep(old(files), toks, i);
        TokenIdsStep(toks, i);
        MarkFilesDeletedStep(old(files), TokenIds(toks[..i]), tok.id, now);
        MarkTokensDeletedStep(old(tokens), TokenIds(toks[..i]), tok.id, now);
        count := count + |FilesOf(files, tok.id)|;
        files := MarkFilesDeleted(files, [tok.id], now);
        tokens := MarkTokensDeleted(tokens, [tok.id], now);
        i := i + 1;
      }
      assert toks[..i] == toks;
    }
  }
}
