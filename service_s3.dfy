/**
 * `ServiceS3`: the S3 service the upload routes use.  It builds the key from
 * the folder and filename as given, sends the file, then signs a URL for it;
 * a `ValueError` from either call is 400, any other failure 500.
 */
module ServiceS3 {
  import opened Wrappers
  import Text
  import S3Store

  /** Lifetime of the URL returned after an upload: seven days. */
  const URL_EXPIRES_IN: nat := 604800

  /** The incoming upload as the framework describes it: its size and content type, when known. */
  datatype UploadedFile = UploadedFile(size: Option<nat>, contentType: Option<string>)

  /** The dictionary `upload_file` returns, or the `HTTPException` it raises. */
  datatype UploadResult =
    | Uploaded(filename: string, s3Key: string, fileUrl: string, fileSize: Option<nat>,
               contentType: Option<string>, expiresIn: nat)
    | Raised(code: int, detail: string)

  /** `f"{folder}/{filename}" if folder else filename`: no trimming of either part. */
  function ObjectKey(filename: string, folder: Option<string>): (key: string)
    ensures Text.EndsWith(key, filename)
    ensures folder.None? || folder.value == "" ==> key == filename
    ensures folder.Some? && folder.value != "" ==>
      |key| == |folder.value| + 1 + |filename| && Text.StartsWith(key, folder.value) && key[|folder.value|] == '/'
  {
    if folder.Some? && folder.value != "" then
      var key := folder.value + "/" + filename;
      assert key[|key| - |filename|..] == filename;
      assert key[..|folder.value|] == folder.value;
      key
    else
      assert filename[|filename| - |filename|..] == filename;
      filename
  }

  /**
   * The `filename` argument: a string, or a value of another type, given by
   * the text `str(type(filename))` prints for it (`<class 'int'>`).
   */
  datatype FilenameArg = Name(value: string) | NotString(typeText: string)

  /**
   * The detail of the 500 raised when a client call fails during an upload
   * with anything but a `ValueError`; the legacy service, which has no
   * `ValueError` handler, also uses it for that one.
   */
  function UploadErrorDetail(e: S3Store.S3Error): string
  {
    match e
    case NoCredentials => "AWS credentials not configured"
    case ClientError(_, message) => "Failed to upload file: " + message
    case ValueRaised(text) => "Upload failed: " + text
    case OtherError(text) => "Upload failed: " + text
  }

  /** The `HTTPException` raised for a failed client call: a `ValueError` is 400 with its text, the rest 500. */
  function ClientFailure(e: S3Store.S3Error): (r: UploadResult)
    ensures r.Raised? && (r.code == 400 <==> e.ValueRaised?) && (r.code == 400 || r.code == 500)
    ensures e.ValueRaised? ==> r.detail == e.text
  {
    if e.ValueRaised? then Raised(400, e.text) else Raised(500, UploadErrorDetail(e))
  }

  /** The client call that failed first raised a `ValueError`. */
  predicate ValueErrorRaised(put: Option<S3Store.S3Error>, presign: S3Store.Result<string>)
  {
    if put.Some? then put.value.ValueRaised? else presign.Failed? && presign.error.ValueRaised?
  }

  /**
   * `upload_file` as a function of the client's answers: a filename that is
   * not a string is 400 naming its type; a send or a signature that raised a
   * `ValueError` is 400 with its text, any other failure of either is 500;
   * otherwise the stored key, the signed URL, and the size and type the
   * upload declared.
   */
  function UploadOutcome(file: UploadedFile, filename: FilenameArg, folder: Option<string>,
                         put: Option<S3Store.S3Error>, presign: S3Store.Result<string>): (r: UploadResult)
    ensures r.Raised? ==> (r.code == 400 <==> filename.NotString? || ValueErrorRaised(put, presign))
    ensures r.Raised? ==> r.code == 400 || r.code == 500
    ensures filename.NotString? ==> r == Raised(400, "Filename must be a string, got " + filename.typeText)
    ensures filename.Name? && put.Some? && put.value.ValueRaised? ==> r == Raised(400, put.value.text)
    ensures filename.Name? && put.None? && presign.Failed? && presign.error.ValueRaised? ==>
      r == Raised(400, presign.error.text)
    ensures r.Uploaded? <==> filename.Name? && put.None? && presign.Ok?
    ensures r.Uploaded? ==>
      r.filename == filename.value && r.s3Key == ObjectKey(filename.value, folder) &&
      r.fileUrl == presign.value && r.fileSize == file.size && r.contentType == file.contentType &&
      r.expiresIn == URL_EXPIRES_IN
  {
    match filename
    case NotString(typeText) => Raised(400, "Filename must be a string, got " + typeText)
    case Name(name) =>
      match put
      case Some(e) => ClientFailure(e)
      case None =>
        match presign
        case Failed(e) => ClientFailure(e)
        case Ok(url) => Uploaded(name, ObjectKey(name, folder), url, file.size, file.contentType, URL_EXPIRES_IN)
  }

  /** The send went through, so the object is in the bucket whatever the response says. */
  predicate StoredByCall(filename: FilenameArg, put: Option<S3Store.S3Error>)
  {
    filename.Name? && put.None?
  }

  /** The S3 service with the bucket whose contents its calls change. */
  class S3Service {
    const bucketName: string
    const bucket: S3Store.Bucket

    constructor(bucketName: string, bucket: S3Store.Bucket)
      ensures this.bucketName == bucketName && this.bucket == bucket
    {
      this.bucketName := bucketName;
      this.bucket := bucket;
    }

    /**
     * `upload_file`: the result `UploadOutcome` describes; the bucket holds
     * the object once the send went through, whatever happens after it.
     */
    method UploadFile(file: UploadedFile, filename: FilenameArg, folder: Option<string>,
                      put: Option<S3Store.S3Error>, presign: S3Store.Result<string>) returns (r: UploadResult)
      modifies bucket
      ensures r == UploadOutcome(file, filename, folder, put, presign)
      ensures StoredByCall(filename, put) ==>
        bucket.objects == old(bucket.objects)[ObjectKey(filename.value, folder) := S3Store.StoredObject(file.size, file.contentType)]
      ensures !StoredByCall(filename, put) ==> bucket.objects == old(bucket.objects)
    {
      if filename.NotString? {
        return Raised(400, "Filename must be a string, got " + filename.typeText);
      }
      var key := ObjectKey(filename.value, folder);
      if put.Some? {
        return ClientFailure(put.value);
      }
      bucket.Put(key, S3Store.StoredObject(file.size, file.contentType));
      match presign {
        case Failed(e) =>
          r := ClientFailure(e);
        case Ok(url) =>
          r := Uploaded(filename.value, key, url, file.size, file.contentType, URL_EXPIRES_IN);
      }
    }

    /**
     * `delete_file`: the status of the `delete_object` call, the object
     * leaving the bucket exactly when the call went through.
     */
    method DeleteFile(key: string, outcome: Option<S3Store.S3Error>) returns (ok: bool, code: int)
      modifies bucket
      ensures (ok, code) == S3Store.DeleteStatus(outcome)
      ensures bucket.objects == if ok then old(bucket.objects) - {key} else old(bucket.objects)
    {
      ok, code := S3Store.DeleteStatus(outcome).0, S3Store.DeleteStatus(outcome).1;
      if ok {
        bucket.Remove(key);
      }
    }
  }
}
