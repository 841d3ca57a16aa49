/**
 * `S3Store`: the bucket the S3 services write to, the errors a boto3 call can
 * raise, and the status mappings and presign parameters the three S3 service
 * variants share.
 */
module S3Store {
  import opened Wrappers
  import Text

  /** An object held in the bucket: its size and declared content type, when known. */
  datatype StoredObject = StoredObject(size: Option<nat>, contentType: Option<string>)

  /**
   * What a boto3 call raised: a `ClientError` with its error code, missing
   * credentials, a `ValueError` (the client refuses an argument) with its
   * text, or anything else.
   */
  datatype S3Error =
    | ClientError(code: string, message: string)
    | NoCredentials
    | ValueRaised(text: string)
    | OtherError(text: string)

  /** The remote bucket: its objects by key. */
  class Bucket {
    var objects: map<string, StoredObject>

    constructor()
      ensures objects == map[]
    {
      objects := map[];
    }

    /** `upload_fileobj` that went through. */
    method Put(key: string, obj: StoredObject)
      modifies this
      ensures objects == old(objects)[key := obj]
    {
      objects := objects[key := obj];
    }

    /** `delete_object` that went through. */
    method Remove(key: string)
      modifies this
      ensures objects == old(objects) - {key}
    {
      objects := objects - {key};
    }
  }

  predicate IsClientError(e: S3Error, code: string)
  {
    e.ClientError? && e.code == code
  }

  /**
   * `delete_file`'s answer to the `delete_object` call: `(True, 200)` when it
   * went through, `(False, 404)` for `NoSuchKey`, `(False, 500)` for anything
   * else.
   */
  function DeleteStatus(error: Option<S3Error>): (r: (bool, int))
    ensures r.0 <==> error.None?
    ensures r.0 ==> r.1 == 200
    ensures !r.0 ==> (r.1 == 404 <==> IsClientError(error.value, "NoSuchKey"))
    ensures !r.0 ==> r.1 == 404 || r.1 == 500
  {
    match error
    case None => (true, 200)
    case Some(e) => if IsClientError(e, "NoSuchKey") then (false, 404) else (false, 500)
  }

  /**
   * The status a failed presign or `head_object` call maps to: 404 for
   * `NoSuchKey`, 403 for `AccessDenied` when `withForbidden`, 500 otherwise.
   */
  function LookupErrorStatus(e: S3Error, withForbidden: bool): (code: int)
    ensures code == 404 <==> IsClientError(e, "NoSuchKey")
    ensures code == 403 <==> withForbidden && IsClientError(e, "AccessDenied")
    ensures code in {403, 404, 500}
  {
    if IsClientError(e, "NoSuchKey") then 404
    else if withForbidden && IsClientError(e, "AccessDenied") then 403
    else 500
  }

  /** `s3_key.split('/')[-1] if '/' in s3_key else s3_key`: the name a download is offered under. */
  function DownloadName(key: string): (r: string)
    ensures Text.EndsWith(key, r) && !('/' in r)
    ensures |r| < |key| ==> key[|key| - |r| - 1] == '/'
    ensures !('/' in key) ==> r == key
  {
    if '/' in key then Text.LastField(key, '/')
    else
      assert key[|key| - |key|..] == key;
      key
  }

  /** The download name of `folder/name` is `name`, whatever the folder. */
  lemma DownloadNameOfFolderKey(folder: string, name: string)
    requires !('/' in name)
    ensures DownloadName(folder + "/" + name) == name
  {
    var key := folder + "/" + name;
    assert key[|folder|] == '/';
    assert forall j :: |folder| < j < |key| ==> key[j] == name[j - |folder| - 1];
    var k := Text.AfterLastIndex(key, '/');
    assert k == |folder| + 1;
    assert key[k..] == name;
  }

  /** The `ResponseContentDisposition` header requested for a presigned URL. */
  function ContentDisposition(key: string, download: bool): (r: string)
    ensures download ==> Text.StartsWith(r, "attachment; ")
    ensures !download ==> Text.StartsWith(r, "inline; ")
    ensures Text.EndsWith(r, "filename=\"" + DownloadName(key) + "\"")
  {
    var kind := if download then "attachment; " else "inline; ";
    var tail := "filename=\"" + DownloadName(key) + "\"";
    Text.ConcatEnds(kind, tail);
    kind + tail
  }

  /** The parameters a presigned GET URL is signed for; the signature itself is the client's. */
  datatype PresignRequest = PresignRequest(bucket: string, key: string, contentDisposition: string, expiresIn: int)

  /**
   * `generate_presigned_url` once the key has been accepted: the signed
   * request with status 200, or no URL and the mapped status when signing
   * raised.  `signing` is what the client raised, if anything.
   */
  function Presign(bucket: string, key: string, expiration: int, download: bool, signing: Option<S3Error>)
    : (r: (Option<PresignRequest>, int))
    ensures r.0.Some? <==> signing.None?
    ensures r.0.Some? ==> r.1 == 200 && r.0.value == PresignRequest(bucket, key, ContentDisposition(key, download), expiration)
    ensures r.0.None? ==> r.1 == LookupErrorStatus(signing.value, true)
  {
    match signing
    case None => (Some(PresignRequest(bucket, key, ContentDisposition(key, download), expiration)), 200)
    case Some(e) => (None, LookupErrorStatus(e, true))
  }

  /** What `head_object` answers: each header when the response carries it. */
  datatype HeadResponse = HeadResponse(contentType: Option<string>, contentLength: Option<nat>,
                                       lastModified: Option<nat>, etag: Option<string>,
                                       metadata: Option<map<string, string>>)

  /** The `file_info` dictionary `get_file_info` builds. */
  datatype FileInfo = FileInfo(contentType: Option<string>, contentLength: nat, lastModified: Option<nat>,
                               etag: Option<string>, metadata: map<string, string>)

  /**
   * `get_file_info` once the key has been accepted: the head response's
   * fields, with the length defaulting to 0, the metadata to `{}` and, when
   * `defaultType` is given, the content type to it; 404 for `NoSuchKey`,
   * 500 for any other error.
   */
  function FileInfoOf(head: Result<HeadResponse>, defaultType: Option<string>): (r: (Option<FileInfo>, int))
    ensures r.0.Some? <==> head.Ok?
    ensures r.0.Some? ==> r.1 == 200
    ensures r.0.Some? ==> r.0.value.contentLength == head.value.contentLength.GetOr(0)
    ensures r.0.Some? ==> r.0.value.metadata == head.value.metadata.GetOr(map[])
    ensures r.0.Some? ==> r.0.value.etag == head.value.etag && r.0.value.lastModified == head.value.lastModified
    ensures r.0.Some? && head.value.contentType.Some? ==> r.0.value.contentType == head.value.contentType
    ensures r.0.Some? && head.value.contentType.None? ==> r.0.value.contentType == defaultType
    ensures r.0.None? ==> r.1 == LookupErrorStatus(head.error, false)
  {
    match head
    case Ok(h) =>
      var t := if h.contentType.Some? then h.contentType else defaultType;
      (Some(FileInfo(t, h.contentLength.GetOr(0), h.lastModified, h.etag, h.metadata.GetOr(map[]))), 200)
    case Failed(e) => (None, LookupErrorStatus(e, false))
  }

  /** The answer of a call into the client: its value, or what it raised. */
  datatype Result<T> = Ok(value: T) | Failed(error: S3Error)
}
