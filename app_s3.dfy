/**
 * `AppS3Service`: the S3 service of the `app` package, which validates the
 * filename and folder, reads the upload before sending it, falls back to a
 * plain object URL when presigning fails, and maps every failure to 400 or
 * 500.
 */
module AppS3Service {
  import opened Wrappers
  import Text
  import S3Store

  /** Lifetime of the URL returned after an upload: seven days. */
  const URL_EXPIRES_IN: nat := 604800

  const DEFAULT_CONTENT_TYPE: string := "application/octet-stream"

  /** What reading the upload gave: some bytes (their count), `None`, or a raised error. */
  datatype ReadOutcome = Bytes(length: nat) | NoContent | ReadRaised(reason: string)

  /** The incoming upload: what reading it yields, its declared content type, and its read position. */
  class UploadedFile {
    const read: ReadOutcome
    const contentType: Option<string>
    var position: nat

    constructor(read: ReadOutcome, contentType: Option<string>)
      ensures this.read == read && this.contentType == contentType && position == 0
    {
      this.read := read;
      this.contentType := contentType;
      position := 0;
    }
  }

  /** The dictionary `upload_file` returns, or the `HTTPException` it raises. */
  datatype UploadResult =
    | Uploaded(filename: string, s3Key: string, fileUrl: string, fileSize: nat, contentType: string, expiresIn: nat)
    | Raised(code: int, detail: string)

  /**
   * `s.strip(c)`: `s` with every `c` removed from both ends; any string so
   * trimmed is this one (`Text.TrimUnique`).
   */
  function StripChar(s: string, c: char): (r: string)
    ensures exists i :: Text.Trimmed(s, r, i, Text.Is(c))
    ensures r != [] ==> r[0] != c && r[|r| - 1] != c
    ensures exists i :: 0 <= i <= |s| && Text.OccursAt(s, r, i)
    decreases |s|
  {
    if s == [] then
      Text.TrimmedWhole(s, Text.Is(c));
      s
    else if s[0] == c then
      var r := StripChar(s[1..], c);
      var i :| Text.Trimmed(s[1..], r, i, Text.Is(c));
      Text.TrimmedPastHead(s, r, i, Text.Is(c));
      r
    else if s[|s| - 1] == c then
      var r := StripChar(s[..|s| - 1], c);
      var i :| Text.Trimmed(s[..|s| - 1], r, i, Text.Is(c));
      Text.TrimmedBeforeLast(s, r, i, Text.Is(c));
      r
    else
      Text.TrimmedWhole(s, Text.Is(c));
      s
  }

  /** `strip(c)` removes exactly the outer `c`s: any maximal trim of `s` by `c` is `StripChar(s, c)`. */
  lemma StripCharIsTheTrim(s: string, c: char, r: string, i: int)
    requires Text.Trimmed(s, r, i, Text.Is(c))
    ensures r == StripChar(s, c)
  {
    var j :| Text.Trimmed(s, StripChar(s, c), j, Text.Is(c));
    Text.TrimUnique(s, r, i, StripChar(s, c), j, Text.Is(c));
  }

  /** The folder after `strip()`, with an empty one treated as none. */
  function CleanFolder(folder: Option<string>): (f: Option<string>)
    ensures f.Some? ==> folder.Some? && f.value != "" && f.value == Text.Strip(folder.value)
    ensures f.None? <==> folder.None? || Text.Strip(folder.value) == ""
  {
    if folder.Some? && Text.Strip(folder.value) != "" then Some(Text.Strip(folder.value)) else None
  }

  /**
   * The object key: the stripped filename, under the cleaned folder with its
   * slashes trimmed when there is one.
   */
  function ObjectKey(filename: string, folder: Option<string>): (key: string)
    ensures Text.EndsWith(key, Text.Strip(filename))
    ensures CleanFolder(folder).None? ==> key == Text.Strip(filename)
    ensures CleanFolder(folder).Some? ==>
      var prefix := StripChar(CleanFolder(folder).value, '/');
      key == prefix + "/" + Text.Strip(filename) &&
      (prefix != [] ==> prefix[0] != '/' && prefix[|prefix| - 1] != '/')
  {
    var name := Text.Strip(filename);
    match CleanFolder(folder)
    case None =>
      assert name[|name| - |name|..] == name;
      name
    case Some(f) =>
      var key := StripChar(f, '/') + "/" + name;
      assert key[|key| - |name|..] == name;
      key
  }

  /** The content type sent: the declared one unless it is missing or blank. */
  function ChosenContentType(declared: Option<string>): (t: string)
    ensures t != ""
    ensures declared.Some? && Text.Strip(declared.value) != "" ==> t == declared.value
  {
    if declared.Some? && Text.Strip(declared.value) != "" then declared.value else DEFAULT_CONTENT_TYPE
  }

  /** The URL returned when presigning fails after the object was stored. */
  function FallbackUrl(bucketName: string, region: string, key: string): string
  {
    "https://" + bucketName + ".s3." + region + ".amazonaws.com/" + key
  }

  /** The detail of the 500 raised for an `upload_fileobj` that failed other than with a `ValueError`. */
  function PutErrorDetail(e: S3Store.S3Error, bucketName: string): string
    requires !e.ValueRaised?
  {
    match e
    case NoCredentials =>
      "AWS credentials not configured. Check AWS_ACCESS_KEY_ID and AWS_SECRET_ACCESS_KEY environment variables."
    case ClientError(code, message) =>
      if code == "NoSuchBucket" then "S3 bucket '" + bucketName + "' not found or inaccessible"
      else if code == "AccessDenied" then "Access denied to S3 bucket. Check IAM permissions."
      else if code == "InvalidAccessKeyId" then "Invalid AWS access key ID"
      else if code == "SignatureDoesNotMatch" then "AWS secret access key is invalid"
      else "S3 operation failed: " + message
    case OtherError(text) =>
      if Text.Contains(text, "NoneType") then
        "Upload failed: A None value was passed where a string or bytes-like object was expected. Check file content and parameters."
      else "Upload failed: " + text
  }

  /**
   * The `HTTPException` raised for a failed `upload_fileobj`: a `ValueError`
   * reaches the 400 handler with its text, everything else is 500.
   */
  function PutFailure(e: S3Store.S3Error, bucketName: string): (r: UploadResult)
    ensures r.Raised? && (r.code == 400 <==> e.ValueRaised?) && (r.code == 400 || r.code == 500)
    ensures e.ValueRaised? ==> r.detail == e.text
  {
    if e.ValueRaised? then Raised(400, e.text) else Raised(500, PutErrorDetail(e, bucketName))
  }

  /** The filename passes the checks made before the upload is read. */
  predicate NameAccepted(filename: Option<string>)
  {
    filename.Some? && Text.Strip(filename.value) != ""
  }

  /** Everything checked before the object is sent is acceptable. */
  predicate Sendable(bucketName: string, filename: Option<string>, read: ReadOutcome)
  {
    NameAccepted(filename) && read.Bytes? && read.length > 0 && bucketName != ""
  }

  /**
   * `upload_file` as a function of the outside world's answers: what reading
   * the upload gave, what `upload_fileobj` raised (if anything) and the URL
   * the client signed (if it could).  Invalid input is 400 and nothing is
   * sent; a send that raised a `ValueError` is 400 too, any other failed
   * send 500; presigning never makes the upload fail.
   */
  function UploadOutcome(bucketName: string, region: string, filename: Option<string>, folder: Option<string>,
                         read: ReadOutcome, declaredType: Option<string>, put: Option<S3Store.S3Error>,
                         presigned: Option<string>): (r: UploadResult)
    ensures r.Raised? ==> r.code == 400 || r.code == 500
    ensures r.Raised? && r.code == 400 <==>
      !Sendable(bucketName, filename, read) || (put.Some? && put.value.ValueRaised?)
    ensures r.Uploaded? <==> Sendable(bucketName, filename, read) && put.None?
  {
    if filename.None? then Raised(400, "Filename cannot be None")
    else if Text.Strip(filename.value) == "" then Raised(400, "Filename cannot be empty or whitespace only")
    else match read
      case NoContent => Raised(400, "Failed to read file: File content is None after reading")
      case ReadRaised(reason) => Raised(400, "Failed to read file: " + reason)
      case Bytes(n) =>
        if n == 0 then Raised(400, "Failed to read file: File is empty (0 bytes)")
        else if bucketName == "" then Raised(400, "Invalid bucket name: " + bucketName)
        else match put
          case Some(e) => PutFailure(e, bucketName)
          case None =>
            var key := ObjectKey(filename.value, folder);
            Uploaded(Text.Strip(filename.value), key, presigned.GetOr(FallbackUrl(bucketName, region, key)), n,
                     ChosenContentType(declaredType), URL_EXPIRES_IN)
  }

  /**
   * A successful upload reports the stripped name, the object key, the size
   * read, the chosen content type, the signed URL (or the plain one when
   * signing failed) and the URL lifetime.
   */
  lemma UploadedFields(bucketName: string, region: string, filename: Option<string>, folder: Option<string>,
                       read: ReadOutcome, declaredType: Option<string>, put: Option<S3Store.S3Error>,
                       presigned: Option<string>)
    requires UploadOutcome(bucketName, region, filename, folder, read, declaredType, put, presigned).Uploaded?
    ensures var r := UploadOutcome(bucketName, region, filename, folder, read, declaredType, put, presigned);
      filename.Some? && read.Bytes? &&
      r.filename == Text.Strip(filename.value) &&
      r.s3Key == ObjectKey(filename.value, folder) &&
      r.fileSize == read.length && r.fileSize > 0 &&
      r.contentType == ChosenContentType(declaredType) &&
      r.fileUrl == presigned.GetOr(FallbackUrl(bucketName, region, r.s3Key)) &&
      r.expiresIn == URL_EXPIRES_IN
  {
  }

  /** A folder with no outer blanks or slashes is used as it is. */
  lemma ObjectKeyOfPlainFolder(filename: string, folder: string)
    requires folder != [] && !Text.IsSpace(folder[0]) && !Text.IsSpace(folder[|folder| - 1])
    requires folder[0] != '/' && folder[|folder| - 1] != '/'
    ensures ObjectKey(filename, Some(folder)) == folder + "/" + Text.Strip(filename)
  {
    Text.StripOfUnpadded(folder);
    assert CleanFolder(Some(folder)) == Some(folder);
    assert StripChar(folder, '/') == folder;
  }

  /**
   * The S3 service: its bucket name and region, and the bucket itself, whose
   * contents the calls change.
   */
  class S3Service {
    const bucketName: string
    const region: string
    const bucket: S3Store.Bucket

    constructor(bucketName: string, region: string, bucket: S3Store.Bucket)
      ensures this.bucketName == bucketName && this.region == region && this.bucket == bucket
    {
      this.bucketName := bucketName;
      this.region := region;
      this.bucket := bucket;
    }

    /**
     * `upload_file`: the result `UploadOutcome` describes; the bucket gains
     * the object exactly when the upload succeeds; the file is rewound
     * whenever it was read.
     */
    method UploadFile(file: UploadedFile, filename: Option<string>, folder: Option<string>,
                      put: Option<S3Store.S3Error>, presigned: Option<string>) returns (r: UploadResult)
      modifies bucket, file
      ensures r == UploadOutcome(bucketName, region, filename, folder, file.read, file.contentType, put, presigned)
      ensures r.Uploaded? ==>
        bucket.objects == old(bucket.objects)[r.s3Key := S3Store.StoredObject(Some(r.fileSize), Some(r.contentType))]
      ensures !r.Uploaded? ==> bucket.objects == old(bucket.objects)
      ensures NameAccepted(filename) ==> file.position == 0
      ensures !NameAccepted(filename) ==> file.position == old(file.position)
    {
      if filename.None? {
        return Raised(400, "Filename cannot be None");
      }
      var name := Text.Strip(filename.value);
      if name == "" {
        return Raised(400, "Filename cannot be empty or whitespace only");
      }
      // the read, with the file position always reset afterwards
      var read := file.read;
      if read.Bytes? {
        file.position := read.length;
      }
      file.position := 0;
      match read {
        case NoContent =>
          return Raised(400, "Failed to read file: File content is None after reading");
        case ReadRaised(reason) =>
          return Raised(400, "Failed to read file: " + reason);
        case Bytes(n) =>
          if n == 0 {
            return Raised(400, "Failed to read file: File is empty (0 bytes)");
          }
      }
      r := SendObject(filename.value, folder, read.length, file.contentType, put, presigned);
    }

    /** The rest of `upload_file` once a named, non-empty file has been read. */
    method SendObject(filename: string, folder: Option<string>, length: nat, declaredType: Option<string>,
                      put: Option<S3Store.S3Error>, presigned: Option<string>) returns (r: UploadResult)
      requires Text.Strip(filename) != "" && length > 0
      modifies bucket
      ensures r == UploadOutcome(bucketName, region, Some(filename), folder, Bytes(length), declaredType, put, presigned)
      ensures r.Uploaded? ==>
        bucket.objects == old(bucket.objects)[r.s3Key := S3Store.StoredObject(Some(r.fileSize), Some(r.contentType))]
      ensures !r.Uploaded? ==> bucket.objects == old(bucket.objects)
    {
      var name := Text.Strip(filename);
      var cleanFolder := CleanFolder(folder);
      var key := name;
      if cleanFolder.Some? {
        key := StripChar(cleanFolder.value, '/') + "/" + name;
      }
      var contentType := ChosenContentType(declaredType);
      if bucketName == "" {
        return Raised(400, "Invalid bucket name: " + bucketName);
      }
      if put.Some? {
        return PutFailure(put.value, bucketName);
      }
      bucket.Put(key, S3Store.StoredObject(Some(length), Some(contentType)));
      var url := if presigned.Some? then presigned.value else FallbackUrl(bucketName, region, key);
      r := Uploaded(name, key, url, length, contentType, URL_EXPIRES_IN);
    }

    /**
     * `delete_file`: an empty key is `(False, 400)` and reaches no call;
     * otherwise the status of the `delete_object` call, the object leaving
     * the bucket when that went through.
     */
    method DeleteFile(key: string, outcome: Option<S3Store.S3Error>) returns (ok: bool, code: int)
      modifies bucket
      ensures key == "" ==> !ok && code == 400
      ensures key != "" ==> (ok, code) == S3Store.DeleteStatus(outcome)
      ensures bucket.objects == if ok then old(bucket.objects) - {key} else old(bucket.objects)
    {
      if key == "" {
        return false, 400;
      }
      ok, code := S3Store.DeleteStatus(outcome).0, S3Store.DeleteStatus(outcome).1;
      if ok {
        bucket.Remove(key);
      }
    }
  }

  /**
   * `generate_presigned_url`: an empty key is `(None, 400)` before any call;
   * otherwise the signed request for the key, with the download name as the
   * last path segment and `attachment` exactly when a download is asked for.
   */
  function GeneratePresignedUrl(bucketName: string, key: string, expiration: int, download: bool,
                                signing: Option<S3Store.S3Error>): (r: (Option<S3Store.PresignRequest>, int))
    ensures key == "" ==> r == (None, 400)
    ensures key != "" ==> r == S3Store.Presign(bucketName, key, expiration, download, signing)
    ensures r.0.Some? ==> Text.EndsWith(r.0.value.contentDisposition, "filename=\"" + S3Store.DownloadName(key) + "\"")
  {
    if key == "" then (None, 400) else S3Store.Presign(bucketName, key, expiration, download, signing)
  }

  /**
   * `get_file_info`: an empty key is `(None, 400)`; otherwise the head
   * response's fields with the content type defaulting to
   * `application/octet-stream`, 404 for `NoSuchKey` and 500 for other errors.
   */
  function GetFileInfo(key: string, head: S3Store.Result<S3Store.HeadResponse>): (r: (Option<S3Store.FileInfo>, int))
    ensures key == "" ==> r == (None, 400)
    ensures key != "" ==> r == S3Store.FileInfoOf(head, Some(DEFAULT_CONTENT_TYPE))
    ensures r.0.Some? ==> r.0.value.contentType.Some?
  {
    if key == "" then (None, 400) else S3Store.FileInfoOf(head, Some(DEFAULT_CONTENT_TYPE))
  }
}
