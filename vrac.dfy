/**
 * The web front end's decisions: the upload ingest loop of `upload_file`
 * with its stream budget, the status dispatch of `get_file`, the lookup of
 * `download_file` and the outcome of `gen_token_post`. The multipart body is
 * a sequence of parts, each field carrying its chunk results.
 */
module Vrac {
  import opened Wrappers
  import opened Ints
  import opened Schema
  import opened Db
  import opened Fs

  const KIB: int := 1024
  const MIB: int := 1024 * 1024

  // ---------------------------------------------------------------------------
  // Stream budget

  /**
   * `max_stream_size`: the token's limit in MiB plus 10 KiB for the multipart
   * boundaries, or `usize::MAX` MiB (which saturates to `u64::MAX`) without a
   * limit. Byte units saturate and a negative i32 counts as zero bytes.
   */
  function MaxStreamSize(maxSizeInMib: Option<int>): (r: int)
    ensures 0 <= r <= U64_MAX
    ensures maxSizeInMib.None? ==> r == U64_MAX
    ensures maxSizeInMib.Some? && 0 <= maxSizeInMib.value <= I32_MAX ==>
      r == maxSizeInMib.value * 1024 * 1024 + 10 * 1024
    ensures maxSizeInMib.Some? && maxSizeInMib.value < 0 ==> r == 10 * 1024
  {
    match maxSizeInMib
    case None => SatU64(U64_MAX * MIB)
    case Some(s) => SatU64(SatU64((if s < 0 then 0 else s) * MIB) + 10 * KIB)
  }

  /** A larger limit never gives a smaller budget, and a limited token never gets more than an unlimited one. */
  lemma MaxStreamSizeMonotone(a: int, b: int)
    requires a <= b
    ensures MaxStreamSize(Some(a)) <= MaxStreamSize(Some(b)) <= MaxStreamSize(None)
  {
  }

  /** The budget admits the whole limit and exactly 10 KiB more. */
  lemma MaxStreamSizeSlack(s: int)
    requires 0 <= s <= I32_MAX
    ensures MaxStreamSize(Some(s)) - s * MIB == 10 * KIB
    ensures MaxStreamSize(Some(10)) == 10 * 1024 * 1024 + 10 * 1024
  {
  }

  // ---------------------------------------------------------------------------
  // The multipart body

  datatype Chunk = ChunkOk(len: nat) | ChunkErr

  /** A part of the body: a field, or whatever makes `next_field` fail. */
  datatype Part =
    | Field(name: Option<string>, fileName: Option<string>, contentType: Option<string>, chunks: seq<Chunk>)
    | Malformed

  /** `field.name().or_else(|| field.file_name())`. */
  function FieldKey(p: Part): Option<string>
    requires p.Field?
  {
    if p.name.Some? then p.name else p.fileName
  }

  /** A field that is written to disk: it has a non-empty key. */
  predicate Kept(p: Part) {
    p.Field? && FieldKey(p).Some? && FieldKey(p).value != ""
  }

  /** Where a kept field goes: the key pushed onto the token's directory. */
  function FilePath(dest: Path, p: Part): Path
    requires Kept(p)
  {
    dest + [FieldKey(p).value]
  }

  /** The file row requested for a kept field; the stored name is the field's file name. */
  function FileSpec(dest: Path, p: Part, tokenId: int): CreateFile
    requires Kept(p)
  {
    CreateFile(FilePath(dest, p), p.fileName, p.contentType, tokenId)
  }

  /** The bytes all of a field's good chunks carry. */
  function Total(chunks: seq<Chunk>): nat {
    if chunks == [] then 0
    else (if chunks[0].ChunkOk? then chunks[0].len else 0) + Total(chunks[1..])
  }

  // ---------------------------------------------------------------------------
  // Writing one field

  datatype ChunkStop = Drained | Kaboom | WriteFailed

  /** How the chunk loop ends and how many bytes reached the file. */
  datatype ChunkRun = ChunkRun(stop: ChunkStop, bytes: nat)

  /**
   * The chunk loop: stop at the first chunk error, or at the first non-empty
   * write to a file that rejects writes.
   */
  function RunChunks(chunks: seq<Chunk>, writable: bool): (run: ChunkRun)
    ensures run.bytes <= Total(chunks)
  {
    if chunks == [] then ChunkRun(Drained, 0)
    else
      match chunks[0]
      case ChunkErr => ChunkRun(Kaboom, 0)
      case ChunkOk(len) =>
        if len > 0 && !writable then ChunkRun(WriteFailed, 0)
        else
          var rest := RunChunks(chunks[1..], writable);
          ChunkRun(rest.stop, len + rest.bytes)
  }

  /**
   * The loop drains the field exactly when no chunk fails and every write is
   * accepted, and then the file holds every byte of the field.
   */
  lemma {:induction false} RunChunksDrained(chunks: seq<Chunk>, writable: bool)
    ensures RunChunks(chunks, writable).stop == Drained <==>
      ChunkErr !in chunks && (writable || forall c :: c in chunks ==> c.len == 0)
    ensures RunChunks(chunks, writable).stop == Drained ==> RunChunks(chunks, writable).bytes == Total(chunks)
  {
    if chunks != [] {
      RunChunksDrained(chunks[1..], writable);
      assert forall c :: c in chunks <==> c == chunks[0] || c in chunks[1..];
    }
  }

  /** A chunk error before any byte is accepted leaves the file empty. */
  lemma RunChunksErrorFirst(rest: seq<Chunk>, writable: bool)
    ensures RunChunks([ChunkErr] + rest, writable) == ChunkRun(Kaboom, 0)
  {
  }

  /** `write_all_buf` for every chunk, the loop of `upload_file` over one field. */
  method WriteChunks(disk: Disk, path: Path, chunks: seq<Chunk>) returns (stop: ChunkStop)
    requires path in disk.files
    modifies disk
    ensures disk.dirs == old(disk.dirs)
    ensures var run := RunChunks(chunks, path !in disk.unwritable);
      stop == run.stop && disk.files == old(disk.files)[path := old(disk.files)[path] + run.bytes]
  {
    ghost var writable := path !in disk.unwritable;
    var written: nat := 0;
    var i := 0;
    while i < |chunks|
      invariant 0 <= i <= |chunks|
      invariant disk.dirs == old(disk.dirs) && path in disk.files
      invariant disk.files == old(disk.files)[path := old(disk.files)[path] + written]
      invariant var rest := RunChunks(chunks[i..], writable);
        RunChunks(chunks, writable) == ChunkRun(rest.stop, written + rest.bytes)
    {
      assert chunks[i..][0] == chunks[i] && chunks[i..][1..] == chunks[i + 1..];
      match chunks[i]
      case ChunkErr =>
        return Kaboom;
      case ChunkOk(len) =>
        var wr := disk.Write(path, len);
        if wr.Err? {
          return WriteFailed;
        }
        written := written + len;
        i := i + 1;
    }
    assert chunks[i..] == [];
    stop := Drained;
  }

  /** How one part of the body ends, given the directories and the disk's faults. */
  datatype FieldStop = Skipped | Stored | ChunkFailed | IoFailed(error: IoError) | MultipartFailed

  function FieldOutcome(dirs: set<Path>, broken: set<Path>, unwritable: set<Path>, dest: Path, p: Part): (s: FieldStop)
    ensures s == MultipartFailed <==> p.Malformed?
    ensures s == Skipped <==> p.Field? && !Kept(p)
    ensures s == Stored <==>
      && Kept(p) && OpenTruncateResult(dirs, broken, FilePath(dest, p)).Ok?
      && ChunkErr !in p.chunks && (FilePath(dest, p) !in unwritable || forall c :: c in p.chunks ==> c.len == 0)
    ensures s == IoFailed(NotFound) <==> Kept(p) && OpenTruncateResult(dirs, broken, FilePath(dest, p)) == Err(NotFound)
  {
    if p.Malformed? then MultipartFailed
    else if !Kept(p) then Skipped
    else
      var path := FilePath(dest, p);
      match OpenTruncateResult(dirs, broken, path)
      case Err(e) => IoFailed(e)
      case Ok(_) =>
        RunChunksDrained(p.chunks, path !in unwritable);
        match RunChunks(p.chunks, path !in unwritable).stop
        case Drained => Stored
        case Kaboom => ChunkFailed
        case WriteFailed => IoFailed(Other)
  }

  /** What a kept field leaves on disk: nothing if the open fails, else the bytes the chunk loop wrote. */
  function FieldBytes(files: map<Path, nat>, dirs: set<Path>, broken: set<Path>, unwritable: set<Path>,
                      dest: Path, p: Part): map<Path, nat>
    requires Kept(p)
  {
    var path := FilePath(dest, p);
    if OpenTruncateResult(dirs, broken, path).Err? then files
    else files[path := RunChunks(p.chunks, path !in unwritable).bytes]
  }

  /** A row appended by `create_file` has an id above every other, so `complete_upload` touches only that row. */
  lemma CompleteFreshRow(files: seq<File>, spec: CreateFile, now: int)
    ensures var f := NewFileRow(files, spec, now);
      CompleteRows(files + [f], f.id) == files + [f.(uploadStatus := Completed)]
  {
    var f := NewFileRow(files, spec, now);
    forall i | 0 <= i < |files| ensures (files + [f])[i].id != f.id {
      assert files[i] in files;
    }
  }

  /**
   * The body of the field loop for a kept field: create the Started row, open
   * the destination, write every chunk, then mark the row Completed.
   */
  method IngestField(store: Store, disk: Disk, dest: Path, tokenId: int, p: Part, now: int) returns (s: FieldStop)
    requires store.Valid() && Kept(p)
    modifies store, disk
    ensures store.Valid() && store.tokens == old(store.tokens) && disk.dirs == old(disk.dirs)
    ensures s == FieldOutcome(old(disk.dirs), disk.broken, disk.unwritable, dest, p)
    ensures var f := NewFileRow(old(store.files), FileSpec(dest, p, tokenId), now);
      store.files == old(store.files) + [if s.Stored? then f.(uploadStatus := Completed) else f]
    ensures disk.files == FieldBytes(old(disk.files), old(disk.dirs), disk.broken, disk.unwritable, dest, p)
  {
    var path := dest + [FieldKey(p).value];
    var row := store.CreateFile(CreateFile(path, p.fileName, p.contentType, tokenId), now);
    var openResult := disk.OpenTruncate(path);
    if openResult.Err? {
      return IoFailed(openResult.error);
    }
    var stop := WriteChunks(disk, path, p.chunks);
    match stop
    case Kaboom =>
      return ChunkFailed;
    case WriteFailed =>
      return IoFailed(Other);
    case Drained =>
      CompleteFreshRow(old(store.files), FileSpec(dest, p, tokenId), now);
      store.CompleteUpload(row.id);
      return Stored;
  }

  // ---------------------------------------------------------------------------
  // The whole upload

  predicate Continues(s: FieldStop) {
    s.Skipped? || s.Stored?
  }

  /** How many leading parts the field loop gets through before one stops it. */
  function ProcessedCount(dirs: set<Path>, broken: set<Path>, unwritable: set<Path>, dest: Path, parts: seq<Part>): (k: nat)
    ensures k <= |parts|
    ensures forall j :: 0 <= j < k ==> Continues(FieldOutcome(dirs, broken, unwritable, dest, parts[j]))
    ensures k < |parts| ==> !Continues(FieldOutcome(dirs, broken, unwritable, dest, parts[k]))
  {
    if parts == [] then 0
    else if Continues(FieldOutcome(dirs, broken, unwritable, dest, parts[0])) then
      1 + ProcessedCount(dirs, broken, unwritable, dest, parts[1..])
    else 0
  }

  /** The parts, in order, whose key is present and non-empty. */
  function KeptFields(parts: seq<Part>): (kept: seq<Part>)
    ensures forall p :: p in kept <==> p in parts && Kept(p)
  {
    if parts == [] then []
    else
      var init := KeptFields(parts[..|parts| - 1]);
      var last := parts[|parts| - 1];
      assert forall p :: p in parts <==> p in parts[..|parts| - 1] || p == last;
      if Kept(last) then init + [last] else init
  }

  /** The file table after each kept field was uploaded in turn. */
  function UploadedRows(files: seq<File>, dest: Path, kept: seq<Part>, tokenId: int, now: int): seq<File>
    requires forall p :: p in kept ==> Kept(p)
  {
    if kept == [] then files
    else
      var init := UploadedRows(files, dest, kept[..|kept| - 1], tokenId, now);
      init + [NewFileRow(init, FileSpec(dest, kept[|kept| - 1], tokenId), now).(uploadStatus := Completed)]
  }

  /** The files on disk after each kept field was written in turn; a later field with the same key truncates the earlier one. */
  function StoredFiles(files: map<Path, nat>, dest: Path, kept: seq<Part>): map<Path, nat>
    requires forall p :: p in kept ==> Kept(p)
  {
    if kept == [] then files
    else
      var last := kept[|kept| - 1];
      StoredFiles(files, dest, kept[..|kept| - 1])[FilePath(dest, last) := Total(last.chunks)]
  }

  /** An upload only appends rows: one per kept field. */
  lemma {:induction false} UploadedRowsPrefix(files: seq<File>, dest: Path, kept: seq<Part>, tokenId: int, now: int)
    requires forall p :: p in kept ==> Kept(p)
    ensures var r := UploadedRows(files, dest, kept, tokenId, now);
      |r| == |files| + |kept| && r[..|files|] == files
  {
    if kept != [] {
      UploadedRowsPrefix(files, dest, kept[..|kept| - 1], tokenId, now);
      var init := UploadedRows(files, dest, kept[..|kept| - 1], tokenId, now);
      assert UploadedRows(files, dest, kept, tokenId, now)[..|files|] == init[..|files|];
    }
  }

  /**
   * The row added for the `j`-th kept field is Completed, owned by the token,
   * and records the field's path, file name and content type.
   */
  lemma {:induction false} UploadedRowsAt(files: seq<File>, dest: Path, kept: seq<Part>, tokenId: int, now: int, j: int)
    requires forall p :: p in kept ==> Kept(p)
    requires 0 <= j < |kept|
    ensures |UploadedRows(files, dest, kept, tokenId, now)| == |files| + |kept|
    ensures var f := UploadedRows(files, dest, kept, tokenId, now)[|files| + j];
      && f.tokenId == tokenId && f.uploadStatus == Completed
      && f.path == FilePath(dest, kept[j]) && f.name == kept[j].fileName && f.contentType == kept[j].contentType
  {
    var init := kept[..|kept| - 1];
    UploadedRowsPrefix(files, dest, kept, tokenId, now);
    UploadedRowsPrefix(files, dest, init, tokenId, now);
    if j < |kept| - 1 {
      UploadedRowsAt(files, dest, init, tokenId, now, j);
      assert init[j] == kept[j];
    }
  }

  /** Row ids stay unique through an upload. */
  lemma {:induction false} UploadedRowsUnique(files: seq<File>, dest: Path, kept: seq<Part>, tokenId: int, now: int)
    requires FileIdsUnique(files) && forall p :: p in kept ==> Kept(p)
    ensures FileIdsUnique(UploadedRows(files, dest, kept, tokenId, now))
  {
    if kept != [] {
      var init := UploadedRows(files, dest, kept[..|kept| - 1], tokenId, now);
      UploadedRowsUnique(files, dest, kept[..|kept| - 1], tokenId, now);
      var spec := FileSpec(dest, kept[|kept| - 1], tokenId);
      NewFileRowFacts(init, spec, now);
      var f := NewFileRow(init, spec, now);
      var r := init + [f.(uploadStatus := Completed)];
      forall i, j | 0 <= i < j < |r| ensures r[i].id != r[j].id {
        assert (init + [f])[i].id != (init + [f])[j].id;
      }
    }
  }

  /** The file of the last kept field with a given key holds all of that field's bytes. */
  lemma {:induction false} StoredFilesLast(files: map<Path, nat>, dest: Path, kept: seq<Part>, j: int)
    requires forall p :: p in kept ==> Kept(p)
    requires 0 <= j < |kept|
    requires forall l :: j < l < |kept| ==> FilePath(dest, kept[l]) != FilePath(dest, kept[j])
    ensures FilePath(dest, kept[j]) in StoredFiles(files, dest, kept)
    ensures StoredFiles(files, dest, kept)[FilePath(dest, kept[j])] == Total(kept[j].chunks)
  {
    var init := kept[..|kept| - 1];
    if j < |kept| - 1 {
      assert init[j] == kept[j];
      forall l | j < l < |init| ensures FilePath(dest, init[l]) != FilePath(dest, init[j]) {
        assert init[l] == kept[l];
      }
      StoredFilesLast(files, dest, init, j);
    }
  }

  /** A file no kept field names is left as it was. */
  lemma {:induction false} StoredFilesUntouched(files: map<Path, nat>, dest: Path, kept: seq<Part>, q: Path)
    requires forall p :: p in kept ==> Kept(p)
    requires forall p :: p in kept ==> FilePath(dest, p) != q
    ensures q in StoredFiles(files, dest, kept) <==> q in files
    ensures q in files ==> StoredFiles(files, dest, kept)[q] == files[q]
  {
    if kept != [] {
      var init := kept[..|kept| - 1];
      assert kept[|kept| - 1] in kept;
      StoredFilesUntouched(files, dest, init, q);
    }
  }

  /** The kept fields of one more part. */
  lemma KeptFieldsStep(parts: seq<Part>, i: int)
    requires 0 <= i < |parts|
    ensures KeptFields(parts[..i + 1]) ==
      if Kept(parts[i]) then KeptFields(parts[..i]) + [parts[i]] else KeptFields(parts[..i])
  {
    assert parts[..i + 1][..i] == parts[..i];
  }

  /** One more kept field adds its Completed row and its file. */
  lemma UploadStep(files: seq<File>, disk: map<Path, nat>, dest: Path, kept: seq<Part>, p: Part, tokenId: int, now: int)
    requires forall q :: q in kept ==> Kept(q)
    requires Kept(p)
    ensures forall q :: q in kept + [p] ==> Kept(q)
    ensures var init := UploadedRows(files, dest, kept, tokenId, now);
      UploadedRows(files, dest, kept + [p], tokenId, now) ==
        init + [NewFileRow(init, FileSpec(dest, p, tokenId), now).(uploadStatus := Completed)]
    ensures StoredFiles(disk, dest, kept + [p]) == StoredFiles(disk, dest, kept)[FilePath(dest, p) := Total(p.chunks)]
  {
    assert (kept + [p])[..|kept|] == kept;
  }

  /** A stored field leaves every one of its bytes in its file. */
  lemma StoredFieldBytes(files: map<Path, nat>, dirs: set<Path>, broken: set<Path>, unwritable: set<Path>,
                         dest: Path, p: Part)
    requires Kept(p) && FieldOutcome(dirs, broken, unwritable, dest, p) == Stored
    ensures FieldBytes(files, dirs, broken, unwritable, dest, p) == files[FilePath(dest, p) := Total(p.chunks)]
  {
    RunChunksDrained(p.chunks, FilePath(dest, p) !in unwritable);
  }

  /** The loop's count of processed parts is the one `ProcessedCount` describes. */
  lemma ProcessedCountIs(dirs: set<Path>, broken: set<Path>, unwritable: set<Path>, dest: Path, parts: seq<Part>, i: int)
    requires 0 <= i <= |parts|
    requires forall j :: 0 <= j < i ==> Continues(FieldOutcome(dirs, broken, unwritable, dest, parts[j]))
    requires i < |parts| ==> !Continues(FieldOutcome(dirs, broken, unwritable, dest, parts[i]))
    ensures ProcessedCount(dirs, broken, unwritable, dest, parts) == i
  {
  }

  datatype FlashKind = Success | Error
  datatype Redirect = ToGetFile(path: string) | ToGenToken
  datatype Message = Text(text: string) | Failure(error: DbError)
  datatype Flash = Flash(kind: FlashKind, to: Redirect, message: Message)

  /** The errors `upload_file` propagates with `?`. */
  datatype UploadError = MultipartIssue | Io(error: IoError)

  /** The response when the field loop stops early. */
  function StopResult(s: FieldStop, tok: string): Result<Option<Flash>, UploadError> {
    match s
    case ChunkFailed => Ok(Some(Flash(Error, ToGetFile(tok), Text("kaboom"))))
    case IoFailed(e) => Err(Io(e))
    case _ => Err(MultipartIssue)
  }

  /** The Started row left behind by the field that stopped the loop, if it was a kept one. */
  function StoppedRows(rows: seq<File>, dest: Path, p: Part, tokenId: int, now: int): seq<File> {
    if Kept(p) then rows + [NewFileRow(rows, FileSpec(dest, p, tokenId), now)] else rows
  }

  /** The bytes the field that stopped the loop left on disk, if it was a kept one. */
  function StoppedFiles(files: map<Path, nat>, dirs: set<Path>, broken: set<Path>, unwritable: set<Path>,
                        dest: Path, p: Part): map<Path, nat> {
    if Kept(p) then FieldBytes(files, dirs, broken, unwritable, dest, p) else files
  }

  /**
   * The state the field loop leaves: with `k` the number of parts it got
   * through, every kept field among them has its Completed row and its file,
   * and when a part stopped the loop, that part's outcome is returned and its
   * Started row and partial file are left behind.
   */
  ghost predicate IngestedParts(files0: seq<File>, disk0: map<Path, nat>, dirs: set<Path>, broken: set<Path>,
                                unwritable: set<Path>, dest: Path, tokenId: int, parts: seq<Part>, now: int,
                                stop: Option<FieldStop>, files: seq<File>, diskFiles: map<Path, nat>)
  {
    var k := ProcessedCount(dirs, broken, unwritable, dest, parts);
    var kept := KeptFields(parts[..k]);
    var rows := UploadedRows(files0, dest, kept, tokenId, now);
    var stored := StoredFiles(disk0, dest, kept);
    && (k == |parts| ==> stop.None? && files == rows && diskFiles == stored)
    && (k < |parts| ==>
          && stop == Some(FieldOutcome(dirs, broken, unwritable, dest, parts[k]))
          && files == StoppedRows(rows, dest, parts[k], tokenId, now)
          && diskFiles == StoppedFiles(stored, dirs, broken, unwritable, dest, parts[k]))
  }

  /** Leaving the loop at part `i`, which does not continue. */
  lemma IngestPartsStopped(files0: seq<File>, disk0: map<Path, nat>, dirs: set<Path>, broken: set<Path>,
                           unwritable: set<Path>, dest: Path, tokenId: int, parts: seq<Part>, now: int, i: int)
    requires 0 <= i < |parts|
    requires forall j :: 0 <= j < i ==> Continues(FieldOutcome(dirs, broken, unwritable, dest, parts[j]))
    requires !Continues(FieldOutcome(dirs, broken, unwritable, dest, parts[i]))
    ensures var kept := KeptFields(parts[..i]);
      IngestedParts(files0, disk0, dirs, broken, unwritable, dest, tokenId, parts, now,
                    Some(FieldOutcome(dirs, broken, unwritable, dest, parts[i])),
                    StoppedRows(UploadedRows(files0, dest, kept, tokenId, now), dest, parts[i], tokenId, now),
                    StoppedFiles(StoredFiles(disk0, dest, kept), dirs, broken, unwritable, dest, parts[i]))
  {
    ProcessedCountIs(dirs, broken, unwritable, dest, parts, i);
  }

  /** Leaving the loop after every part went through. */
  lemma IngestPartsDone(files0: seq<File>, disk0: map<Path, nat>, dirs: set<Path>, broken: set<Path>,
                        unwritable: set<Path>, dest: Path, tokenId: int, parts: seq<Part>, now: int)
    requires forall j :: 0 <= j < |parts| ==> Continues(FieldOutcome(dirs, broken, unwritable, dest, parts[j]))
    ensures var kept := KeptFields(parts[..|parts|]);
      IngestedParts(files0, disk0, dirs, broken, unwritable, dest, tokenId, parts, now, None,
                    UploadedRows(files0, dest, kept, tokenId, now), StoredFiles(disk0, dest, kept))
  {
    ProcessedCountIs(dirs, broken, unwritable, dest, parts, |parts|);
  }

  /**
   * The field loop of `upload_file`: returns None when every part went
   * through, else how the part that stopped the loop ended.
   */
  method IngestParts(store: Store, disk: Disk, dest: Path, tokenId: int, parts: seq<Part>, now: int)
    returns (stop: Option<FieldStop>)
    requires store.Valid()
    modifies store, disk
    ensures store.Valid() && store.tokens == old(store.tokens) && disk.dirs == old(disk.dirs)
    ensures IngestedParts(old(store.files), old(disk.files), old(disk.dirs), disk.broken, disk.unwritable,
                          dest, tokenId, parts, now, stop, store.files, disk.files)
  {
    ghost var files0, disk0, dirs0 := store.files, disk.files, disk.dirs;
    ghost var broken, unwritable := disk.broken, disk.unwritable;
    var i := 0;
    while i < |parts|
      invariant 0 <= i <= |parts|
      invariant store.Valid() && store.tokens == old(store.tokens) && disk.dirs == dirs0
      invariant forall j :: 0 <= j < i ==> Continues(FieldOutcome(dirs0, broken, unwritable, dest, parts[j]))
      invariant store.files == UploadedRows(files0, dest, KeptFields(parts[..i]), tokenId, now)
      invariant disk.files == StoredFiles(disk0, dest, KeptFields(parts[..i]))
    {
      var p := parts[i];
      ghost var kept := KeptFields(parts[..i]);
      KeptFieldsStep(parts, i);
      if p.Malformed? {
        IngestPartsStopped(files0, disk0, dirs0, broken, unwritable, dest, tokenId, parts, now, i);
        return Some(MultipartFailed);
      }
      var key := if p.name.Some? then p.name else p.fileName;
      if key.None? || key.value == "" {
        assert !Kept(p) && FieldOutcome(dirs0, broken, unwritable, dest, p) == Skipped;
        i := i + 1;
        continue;
      }
      assert Kept(p);
      ghost var diskBefore := disk.files;
      var s := IngestField(store, disk, dest, tokenId, p, now);
      if !s.Stored? {
        IngestPartsStopped(files0, disk0, dirs0, broken, unwritable, dest, tokenId, parts, now, i);
        return Some(s);
      }
      StoredFieldBytes(diskBefore, dirs0, broken, unwritable, dest, p);
      UploadStep(files0, disk0, dest, kept, p, tokenId, now);
      i := i + 1;
    }
    IngestPartsDone(files0, disk0, dirs0, broken, unwritable, dest, tokenId, parts, now);
    stop := None;
  }

  /**
   * `upload_file`: find the live token, create its directory under `root`,
   * store every field, then consume the token.
   */
  method UploadFile(store: Store, disk: Disk, root: Path, tok: string, parts: seq<Part>, now: int)
    returns (r: Result<Option<Flash>, UploadError>)
    requires store.Valid()
    modifies store, disk
    ensures store.Valid()
    ensures GetValidToken(old(store.tokens), tok, now).None? ==>
      && r == Ok(None) && store.tokens == old(store.tokens) && store.files == old(store.files)
      && disk.files == old(disk.files) && disk.dirs == old(disk.dirs)
    ensures GetValidToken(old(store.tokens), tok, now).Some? ==>
      var t := GetValidToken(old(store.tokens), tok, now).value;
      var dest := root + [t.path];
      !(Ancestors(dest) !! (disk.broken + old(disk.files).Keys)) ==>
        && r == Err(Io(Other)) && store.tokens == old(store.tokens) && store.files == old(store.files)
        && disk.files == old(disk.files) && disk.dirs == old(disk.dirs)
    ensures GetValidToken(old(store.tokens), tok, now).Some? ==>
      var t := GetValidToken(old(store.tokens), tok, now).value;
      var dest := root + [t.path];
      var dirs := old(disk.dirs) + Ancestors(dest);
      var k := ProcessedCount(dirs, disk.broken, disk.unwritable, dest, parts);
      var kept := KeptFields(parts[..k]);
      var rows := UploadedRows(old(store.files), dest, kept, t.id, now);
      var stored := StoredFiles(old(disk.files), dest, kept);
      Ancestors(dest) !! (disk.broken + old(disk.files).Keys) ==>
        && disk.dirs == dirs
        && (k == |parts| ==>
              && r == Ok(Some(Flash(Success, ToGetFile(t.path), Text("File uploaded."))))
              && store.tokens == ConsumeRows(old(store.tokens), t, now)
              && store.files == rows && disk.files == stored)
        && (k < |parts| ==>
              && r == StopResult(FieldOutcome(dirs, disk.broken, disk.unwritable, dest, parts[k]), tok)
              && store.tokens == old(store.tokens)
              && store.files == StoppedRows(rows, dest, parts[k], t.id, now)
              && disk.files == StoppedFiles(stored, dirs, disk.broken, disk.unwritable, dest, parts[k]))
  {
    var found := GetValidToken(store.tokens, tok, now);
    if found.None? {
      return Ok(None);
    }
    var token := found.value;
    var dest := root + [token.path];
    var created := disk.CreateDirAll(dest);
    if created.Err? {
      return Err(Io(created.error));
    }
    var stop := IngestParts(store, disk, dest, token.id, parts, now);
    if stop.Some? {
      return StopResult(stop.value, tok);
    }
    store.ConsumeToken(token, now);
    r := Ok(Some(Flash(Success, ToGetFile(token.path), Text("File uploaded."))));
  }

  /** Fields without a usable key are passed over: the token is consumed and no row is added. */
  lemma {:induction false} UnnamedFieldsAreSkipped(dirs: set<Path>, broken: set<Path>, unwritable: set<Path>,
                                                    dest: Path, parts: seq<Part>)
    requires forall p :: p in parts ==> p.Field? && !Kept(p)
    ensures ProcessedCount(dirs, broken, unwritable, dest, parts) == |parts|
    ensures KeptFields(parts) == []
  {
    if parts != [] {
      assert parts[0] in parts;
      assert forall p :: p in parts[1..] ==> p in parts;
      UnnamedFieldsAreSkipped(dirs, broken, unwritable, dest, parts[1..]);
      assert forall p :: p in parts[..|parts| - 1] ==> p in parts;
      UnnamedFieldsAreSkipped(dirs, broken, unwritable, dest, parts[..|parts| - 1]);
    }
  }

  /** The field that stops the loop leaves its row Started: the row exists before the open, and completion comes last. */
  lemma StoppedRowIsStarted(rows: seq<File>, dest: Path, p: Part, tokenId: int, now: int)
    requires Kept(p)
    ensures var r := StoppedRows(rows, dest, p, tokenId, now);
      && |r| == |rows| + 1 && r[..|rows|] == rows
      && r[|rows|].uploadStatus == Started && r[|rows|].tokenId == tokenId && r[|rows|].path == FilePath(dest, p)
  {
    var r := StoppedRows(rows, dest, p, tokenId, now);
    assert r[..|rows|] == rows;
  }

  /** A chunk error yields the "kaboom" flash back to the token's page, not an error. */
  lemma ChunkErrorFlashes(dirs: set<Path>, broken: set<Path>, unwritable: set<Path>, dest: Path, p: Part, tok: string)
    requires Kept(p) && OpenTruncateResult(dirs, broken, FilePath(dest, p)).Ok?
    requires p.chunks != [] && p.chunks[0] == ChunkErr
    ensures FieldOutcome(dirs, broken, unwritable, dest, p) == ChunkFailed
    ensures StopResult(FieldOutcome(dirs, broken, unwritable, dest, p), tok) ==
      Ok(Some(Flash(Error, ToGetFile(tok), Text("kaboom"))))
  {
  }

  // ---------------------------------------------------------------------------
  // get_file

  /** A row of the listing. */
  datatype FileEntry = FileEntry(id: int, name: Option<string>, contentType: Option<string>, isImage: bool)

  /** The content type starts with "image". */
  predicate IsImage(contentType: Option<string>) {
    contentType.Some? && |contentType.value| >= 5 && contentType.value[..5] == "image"
  }

  function Entries(files: seq<File>): (r: seq<FileEntry>) {
    seq(|files|, i requires 0 <= i < |files| =>
      FileEntry(files[i].id, files[i].name, files[i].contentType, IsImage(files[i].contentType)))
  }

  /** What `get_file` renders: nothing, the upload form, the listing, or the `unreachable!` panic. */
  datatype FileView = NoToken | UploadPage(token: Token) | Listing(token: Token, entries: seq<FileEntry>) | Unreachable

  /** `get_file`: dispatch on the status of the live token. */
  function GetFileView(tokens: seq<Token>, files: seq<File>, tok: string, now: int): (v: FileView)
    ensures v.NoToken? <==> GetValidToken(tokens, tok, now).None?
    ensures v.UploadPage? <==> GetValidToken(tokens, tok, now).Some? && GetValidToken(tokens, tok, now).value.status == Fresh
    ensures v.Unreachable? <==> GetValidToken(tokens, tok, now).Some? && GetValidToken(tokens, tok, now).value.status == Deleted
    ensures !v.NoToken? && !v.Unreachable? ==> v.token == GetValidToken(tokens, tok, now).value
  {
    match GetValidToken(tokens, tok, now)
    case None => NoToken
    case Some(t) =>
      match t.status
      case Fresh => UploadPage(t)
      case Used => Listing(t, Entries(GetFiles(files, t)))
      case Deleted => Unreachable
  }

  /** The listing shows exactly the token's Completed files, each marked as an image by its content type. */
  lemma ListingShowsCompletedFiles(tokens: seq<Token>, files: seq<File>, tok: string, now: int)
    requires GetFileView(tokens, files, tok, now).Listing?
    ensures var v := GetFileView(tokens, files, tok, now);
      && v.token.status == Used && v.token.path == tok
      && (forall e :: e in v.entries ==>
            exists f :: (f in files && f.id == e.id && f.tokenId == v.token.id &&
                         f.uploadStatus == Completed && e.isImage == IsImage(f.contentType)))
      && (forall f :: f in files && f.tokenId == v.token.id && f.uploadStatus == Completed ==>
            exists e :: e in v.entries && e.id == f.id)
  {
    var v := GetFileView(tokens, files, tok, now);
    var listed := GetFiles(files, v.token);
    assert v.entries == Entries(listed);
    forall e | e in v.entries
      ensures exists f :: f in files && f.id == e.id && f.tokenId == v.token.id &&
                          f.uploadStatus == Completed && e.isImage == IsImage(f.contentType)
    {
      var i :| 0 <= i < |v.entries| && v.entries[i] == e;
      assert listed[i] in listed;
    }
    forall f | f in files && f.tokenId == v.token.id && f.uploadStatus == Completed
      ensures exists e :: e in v.entries && e.id == f.id
    {
      var i :| 0 <= i < |listed| && listed[i] == f;
      assert v.entries[i] in v.entries;
    }
  }

  /** The panic is reachable: a Deleted row whose content deadline is now is still found. */
  lemma GetFileCanPanic(t: Token, files: seq<File>, now: int)
    requires t.status == Deleted && t.contentExpiresAt == Some(now)
    ensures GetFileView([t], files, t.path, now) == Unreachable
  {
    DeletedTokenCanBeValid([t], t.path, now);
  }

  // ---------------------------------------------------------------------------
  // download_file

  /** The row `download_file` serves: a file with that id owned by the live token. */
  function DownloadTarget(tokens: seq<Token>, files: seq<File>, tok: string, fileId: int, now: int): (r: Option<File>)
    ensures r.Some? <==>
      GetValidToken(tokens, tok, now).Some? && GetFile(files, GetValidToken(tokens, tok, now).value, fileId).Some?
    ensures r.Some? ==> r.value in files && r.value.id == fileId && r.value.tokenId == GetValidToken(tokens, tok, now).value.id
  {
    match GetValidToken(tokens, tok, now)
    case None => None
    case Some(t) => GetFile(files, t, fileId)
  }

  /** Neither the token's status nor the file's upload status is checked. */
  lemma DownloadIgnoresStatuses(t: Token, f: File, now: int)
    requires t.status == Deleted && t.contentExpiresAt == Some(now)
    requires f.tokenId == t.id && f.uploadStatus == Started
    ensures DownloadTarget([t], [f], t.path, f.id, now) == Some(f)
  {
    DeletedTokenCanBeValid([t], t.path, now);
  }

  // ---------------------------------------------------------------------------
  // gen_token_post

  /** The token form: sizes in MiB, hours as integers. */
  datatype TokenInput = TokenInput(
    path: string,
    maxSize: Option<nat>,
    contentExpiresAfterHours: Option<nat>,
    tokenValidFor: nat)

  /** The `CreateToken` built from the form at time `now`; durations become seconds. */
  function TokenSpecOf(input: TokenInput, now: int): (spec: CreateToken)
    ensures spec.tokenExpiresAt >= now && NumHours(spec.tokenExpiresAt - now) == input.tokenValidFor
    ensures spec.contentExpiresAfter.Some? <==> input.contentExpiresAfterHours.Some?
    ensures spec.contentExpiresAfter.Some? ==>
      spec.contentExpiresAfter.value % SECONDS_PER_HOUR == 0 &&
      NumHours(spec.contentExpiresAfter.value) == input.contentExpiresAfterHours.value
    ensures spec.path == input.path && spec.maxSizeInMib == input.maxSize
  {
    CreateToken(
      input.path,
      input.maxSize,
      now + input.tokenValidFor * SECONDS_PER_HOUR,
      input.contentExpiresAfterHours.Map((h: nat) => h * SECONDS_PER_HOUR))
  }

  /**
   * The form's values survive into the stored row: the token expires
   * `token-valid-for` hours from now, and the content hours and the size come
   * back unchanged while they fit in an i32.
   */
  lemma TokenSpecRoundTrip(tokens: seq<Token>, input: TokenInput, now: int)
    ensures var t := NewTokenRow(tokens, TokenSpecOf(input, now), now);
      && t.path == input.path && t.status == Fresh
      && t.tokenExpiresAt == now + input.tokenValidFor * 3600
      && (input.contentExpiresAfterHours.None? ==> t.contentExpiresAfterHours.None?)
      && (input.contentExpiresAfterHours.Some? && input.contentExpiresAfterHours.value <= I32_MAX ==>
            t.contentExpiresAfterHours == input.contentExpiresAfterHours)
      && (input.maxSize.Some? && input.maxSize.value <= I32_MAX ==> t.maxSizeInMib == input.maxSize)
  {
    if input.contentExpiresAfterHours.Some? {
      var h := input.contentExpiresAfterHours.value;
      assert NumHours(h * SECONDS_PER_HOUR) == h;
    }
  }

  /** `gen_token_post`: a refused token is reported in an error flash back to the form, not as an error. */
  method GenTokenPost(store: Store, input: TokenInput, now: int) returns (flash: Flash)
    requires store.Valid()
    modifies store
    ensures store.Valid() && store.files == old(store.files)
    ensures GetValidToken(old(store.tokens), input.path, now).Some? ==>
      && flash == Flash(Error, ToGenToken, Failure(TokenAlreadyExists(input.path)))
      && store.tokens == old(store.tokens)
    ensures GetValidToken(old(store.tokens), input.path, now).None? ==>
      && flash == Flash(Success, ToGetFile(input.path), Text("Token created"))
      && store.tokens == old(store.tokens) + [NewTokenRow(old(store.tokens), TokenSpecOf(input, now), now)]
  {
    var created := store.CreateToken(TokenSpecOf(input, now), now);
    match created
    case Ok(newToken) =>
      flash := Flash(Success, ToGetFile(newToken.path), Text("Token created"));
    case Err(err) =>
      flash := Flash(Error, ToGenToken, Failure(err));
  }
}
