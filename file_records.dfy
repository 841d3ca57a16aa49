/**
 * `FileRecords`: the `file_uploads` row, its column defaults and its
 * `to_dict` serialisation.
 */
module FileRecords {
  import opened Wrappers
  import Metadata

  /** The content columns of a row, which a new version or a restore copies. */
  datatype FileData = FileData(
    originalFilename: string,
    s3Key: string,
    s3Url: string,
    fileSize: int,
    contentType: string,
    fileContent: Option<string>,
    score: int,
    folderPath: Option<string>,
    metadata: Option<map<string, Metadata.Json>>,
    uploadIp: Option<string>,
    uploadStatus: string,
    processingTimeMs: int)

  /** A `file_uploads` row; timestamps are seconds. */
  datatype FileRecord = FileRecord(
    id: nat,
    data: FileData,
    userId: Option<int>,
    version: int,
    isCurrent: bool,
    parentVersionId: Option<nat>,
    versionComment: Option<string>,
    createdAt: Option<nat>,
    updatedAt: Option<nat>)

  /** The columns a caller may leave out, with their declared defaults. */
  datatype Defaults = Defaults(score: int, uploadStatus: string, processingTimeMs: int, version: int, isCurrent: bool)

  /** `default=` of the `score`, `upload_status`, `processing_time_ms`, `version` and `is_current_version` columns. */
  const COLUMN_DEFAULTS: Defaults := Defaults(0, "success", 0, 1, true)

  /** A row built with only the required columns given, the server stamping `now`. */
  function NewRow(id: nat, originalFilename: string, s3Key: string, s3Url: string, fileSize: int,
                  contentType: string, now: nat): (r: FileRecord)
    ensures r.version == 1 && r.isCurrent
    ensures r.data.uploadStatus == "success" && r.data.score == 0
    ensures r.parentVersionId == None && r.versionComment == None
    ensures r.createdAt == Some(now) && r.updatedAt == Some(now)
  {
    FileRecord(id,
      FileData(originalFilename, s3Key, s3Url, fileSize, contentType, None, COLUMN_DEFAULTS.score, None, None, None,
               COLUMN_DEFAULTS.uploadStatus, COLUMN_DEFAULTS.processingTimeMs),
      None, COLUMN_DEFAULTS.version, COLUMN_DEFAULTS.isCurrent, None, None, Some(now), Some(now))
  }

  /**
   * What `to_dict` produces: every column but the file content itself, with
   * `has_content` in its place, the metadata defaulted to an empty object and
   * the timestamps as ISO text or null.
   */
  datatype RecordDict = RecordDict(
    id: nat,
    originalFilename: string,
    s3Key: string,
    s3Url: string,
    fileSize: int,
    contentType: string,
    score: int,
    folderPath: Option<string>,
    userId: Option<int>,
    uploadIp: Option<string>,
    uploadStatus: string,
    processingTimeMs: int,
    version: int,
    isCurrentVersion: bool,
    parentVersionId: Option<nat>,
    versionComment: Option<string>,
    createdAt: Option<string>,
    updatedAt: Option<string>,
    hasContent: bool,
    metadata: map<string, Metadata.Json>)

  /** A timestamp in ISO form, or null when absent; `iso` stands for `isoformat`. */
  function Timestamp(t: Option<nat>, iso: nat -> string): (r: Option<string>)
    ensures r.None? <==> t.None?
  {
    match t
    case None => None
    case Some(v) => Some(iso(v))
  }

  /** `to_dict` */
  function ToDict(r: FileRecord, iso: nat -> string): (d: RecordDict)
    ensures d.hasContent <==> r.data.fileContent.Some? && r.data.fileContent.value != ""
    ensures r.data.metadata.None? ==> d.metadata == map[]
    ensures r.data.metadata.Some? ==> d.metadata == r.data.metadata.value
    ensures d.createdAt.None? <==> r.createdAt.None?
    ensures d.updatedAt.None? <==> r.updatedAt.None?
  {
    RecordDict(r.id, r.data.originalFilename, r.data.s3Key, r.data.s3Url, r.data.fileSize, r.data.contentType,
      r.data.score, r.data.folderPath, r.userId, r.data.uploadIp, r.data.uploadStatus, r.data.processingTimeMs,
      r.version, r.isCurrent, r.parentVersionId, r.versionComment,
      Timestamp(r.createdAt, iso), Timestamp(r.updatedAt, iso),
      r.data.fileContent.Some? && r.data.fileContent.value != "",
      if r.data.metadata.Some? then r.data.metadata.value else map[])
  }

  /** Two rows that differ only in their file content serialise identically. */
  lemma ToDictHidesContent(r: FileRecord, c: string, iso: nat -> string)
    requires r.data.fileContent.Some? && r.data.fileContent.value != "" && c != ""
    ensures ToDict(r.(data := r.data.(fileContent := Some(c))), iso) == ToDict(r, iso)
    ensures ToDict(r.(data := r.data.(fileContent := None)), iso) == ToDict(r, iso).(hasContent := false)
  {
  }

  /** The response schema's version field: at least 1, defaulting to 1. */
  predicate ValidResponseVersion(version: int)
  {
    version >= 1
  }

  lemma DefaultVersionIsValid()
    ensures ValidResponseVersion(COLUMN_DEFAULTS.version) && COLUMN_DEFAULTS.isCurrent
  {
  }
}
