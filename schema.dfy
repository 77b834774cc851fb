/**
 * Row shapes of the `token` and `file` tables, and the text codecs of the two
 * status columns. Timestamps are whole seconds; file paths are sequences of
 * path components.
 */
module Schema {
  import opened Wrappers

  type Path = seq<string>

  datatype TokenStatus = Fresh | Used | Deleted

  datatype FileUploadStatus = Started | Completed

  /** The texts the `status` column may hold. */
  const TOKEN_STATUS_TAGS: set<string> := {"FRESH", "USED", "DELETED"}

  /** `ToSql for TokenStatus`: the tag written to the `status` column. */
  function TokenStatusToSql(s: TokenStatus): (r: string)
    ensures r in TOKEN_STATUS_TAGS
  {
    match s
    case Fresh => "FRESH"
    case Used => "USED"
    case Deleted => "DELETED"
  }

  /** `FromSql for TokenStatus`: any other text is a deserialisation error. */
  function TokenStatusFromSql(raw: string): (r: Result<TokenStatus, string>)
    ensures r.Err? ==> r.error == "Unknown token status: " + raw
    ensures r.Ok? ==> TokenStatusToSql(r.value) == raw
    ensures r.Ok? <==> raw in TOKEN_STATUS_TAGS
  {
    if raw == "FRESH" then Ok(Fresh)
    else if raw == "USED" then Ok(Used)
    else if raw == "DELETED" then Ok(Deleted)
    else Err("Unknown token status: " + raw)
  }

  /** Decoding what was encoded gives back the status. */
  lemma TokenStatusRoundTrip(s: TokenStatus)
    ensures TokenStatusFromSql(TokenStatusToSql(s)) == Ok(s)
  {
  }

  /** The decoder accepts exactly the three tags the encoder writes. */
  lemma TokenStatusFromSqlAccepts(raw: string)
    ensures TokenStatusFromSql(raw).Ok? <==> exists s: TokenStatus :: TokenStatusToSql(s) == raw
  {
    if TokenStatusFromSql(raw).Ok? {
      assert TokenStatusToSql(TokenStatusFromSql(raw).value) == raw;
    }
  }

  /** The texts the `file_upload_status` column may hold. */
  const FILE_UPLOAD_STATUS_TAGS: set<string> := {"STARTED", "COMPLETED"}

  /** `ToSql for FileUploadStatus`. */
  function FileUploadStatusToSql(s: FileUploadStatus): (r: string)
    ensures r in FILE_UPLOAD_STATUS_TAGS
  {
    match s
    case Started => "STARTED"
    case Completed => "COMPLETED"
  }

  /** `FromSql for FileUploadStatus`. */
  function FileUploadStatusFromSql(raw: string): (r: Result<FileUploadStatus, string>)
    ensures r.Err? ==> r.error == "Unknown file upload status: " + raw
    ensures r.Ok? ==> FileUploadStatusToSql(r.value) == raw
    ensures r.Ok? <==> raw in FILE_UPLOAD_STATUS_TAGS
  {
    if raw == "STARTED" then Ok(Started)
    else if raw == "COMPLETED" then Ok(Completed)
    else Err("Unknown file upload status: " + raw)
  }

  lemma FileUploadStatusRoundTrip(s: FileUploadStatus)
    ensures FileUploadStatusFromSql(FileUploadStatusToSql(s)) == Ok(s)
  {
  }

  lemma FileUploadStatusFromSqlAccepts(raw: string)
    ensures FileUploadStatusFromSql(raw).Ok? <==> exists s: FileUploadStatus :: FileUploadStatusToSql(s) == raw
  {
    if FileUploadStatusFromSql(raw).Ok? {
      assert FileUploadStatusToSql(FileUploadStatusFromSql(raw).value) == raw;
    }
  }

  /** A row of the `token` table. `maxSizeInMib` and `contentExpiresAfterHours` are i32 columns. */
  datatype Token = Token(
    id: int,
    path: string,
    status: TokenStatus,
    maxSizeInMib: Option<int>,
    createdAt: int,
    tokenExpiresAt: int,
    contentExpiresAt: Option<int>,
    contentExpiresAfterHours: Option<int>,
    deletedAt: Option<int>)

  /** A row of the `file` table. */
  datatype File = File(
    id: int,
    tokenId: int,
    name: Option<string>,
    path: Path,
    contentType: Option<string>,
    sizeMib: Option<int>,
    createdAt: int,
    deletedAt: Option<int>,
    uploadStatus: FileUploadStatus)

  /**
   * `CreateToken`: what a caller supplies. `maxSizeInMib` is a u32 and
   * `contentExpiresAfter` a duration in seconds.
   */
  datatype CreateToken = CreateToken(
    path: string,
    maxSizeInMib: Option<nat>,
    tokenExpiresAt: int,
    contentExpiresAfter: Option<int>)

  /** `CreateFile`: what the uploader supplies for a new file row. */
  datatype CreateFile = CreateFile(
    path: Path,
    name: Option<string>,
    contentType: Option<string>,
    tokenId: int)
}
