/**
 * `LegacyS3`: the top-level S3 service module.  Its upload builds the key as
 * the routes' service does and answers as it does except for a client
 * `ValueError`, which it turns into a 500 (`UploadAnswer`); its delete raises instead of
 * returning a status; it can also list the bucket.
 */
module LegacyS3 {
  import opened Wrappers
  import S3Store
  import ServiceS3

  /**
   * `upload_file` (s3_service.py:21-70): the key as the routes' service builds
   * it and the same 500 details for a failed send or signature, but no 400
   * at all: this copy does not check that the filename is a text and has no
   * `ValueError` handler, so a `ValueError` from the client falls through to
   * the catch-all 500.
   */
  function UploadAnswer(file: ServiceS3.UploadedFile, filename: string, folder: Option<string>,
                        put: Option<S3Store.S3Error>, presign: S3Store.Result<string>): (r: ServiceS3.UploadResult)
    ensures r.Raised? ==> r.code == 500
    ensures r.Uploaded? <==> put.None? && presign.Ok?
    ensures r.Uploaded? ==>
      r.filename == filename && r.s3Key == ServiceS3.ObjectKey(filename, folder) && r.fileUrl == presign.value &&
      r.fileSize == file.size && r.contentType == file.contentType && r.expiresIn == ServiceS3.URL_EXPIRES_IN
    ensures put.Some? && put.value.ValueRaised? ==> r == ServiceS3.Raised(500, "Upload failed: " + put.value.text)
    ensures put.None? && presign.Failed? && presign.error.ValueRaised? ==>
      r == ServiceS3.Raised(500, "Upload failed: " + presign.error.text)
    ensures !ServiceS3.ValueErrorRaised(put, presign) ==>
      r == ServiceS3.UploadOutcome(file, ServiceS3.Name(filename), folder, put, presign)
  {
    var key := if folder.Some? && folder.value != "" then folder.value + "/" + filename else filename;
    if put.Some? then ServiceS3.Raised(500, ServiceS3.UploadErrorDetail(put.value))
    else if presign.Failed? then ServiceS3.Raised(500, ServiceS3.UploadErrorDetail(presign.error))
    else ServiceS3.Uploaded(filename, key, presign.value, file.size, file.contentType, 604800)
  }

  /**
   * Where the two services part: a `ValueError` raised by the client is a
   * 400 carrying its text from the routes' service, and a 500 from this one.
   */
  lemma ValueErrorAnsweredDifferently(file: ServiceS3.UploadedFile, filename: string, folder: Option<string>,
                                      put: Option<S3Store.S3Error>, presign: S3Store.Result<string>)
    requires ServiceS3.ValueErrorRaised(put, presign)
    ensures UploadAnswer(file, filename, folder, put, presign).code == 500
    ensures ServiceS3.UploadOutcome(file, ServiceS3.Name(filename), folder, put, presign).code == 400
    ensures UploadAnswer(file, filename, folder, put, presign) !=
            ServiceS3.UploadOutcome(file, ServiceS3.Name(filename), folder, put, presign)
  {
  }

  /** What `delete_file` does: return `True`, raise a 500, or let a non-client error propagate. */
  datatype DeleteAnswer = Deleted | Raised(code: int, detail: string) | Propagated(error: S3Store.S3Error)

  /**
   * `delete_file` given what `delete_object` raised: only a `ClientError` is
   * turned into an `HTTPException` 500; anything else escapes unchanged.
   */
  function DeleteAnswerOf(outcome: Option<S3Store.S3Error>): (a: DeleteAnswer)
    ensures a.Deleted? <==> outcome.None?
    ensures a.Raised? <==> outcome.Some? && outcome.value.ClientError?
    ensures a.Raised? ==> a.code == 500
    ensures a.Propagated? ==> a.error == outcome.value && !a.error.ClientError?
  {
    match outcome
    case None => Deleted
    case Some(ClientError(_, message)) => Raised(500, "Failed to delete file: " + message)
    case Some(e) => Propagated(e)
  }

  /** An entry of `Contents` in a `list_objects_v2` response. */
  datatype ListedObject = ListedObject(key: string, size: nat, lastModified: Option<nat>, etag: string,
                                       storageClass: Option<string>)

  /** The dictionary `list_files` returns for one object. */
  datatype FileEntry = FileEntry(key: string, size: nat, lastModified: Option<nat>, etag: string, storageClass: string)

  /** One object as listed: its key, size and etag kept, the storage class defaulting to `STANDARD`. */
  function EntryOf(o: ListedObject): (e: FileEntry)
    ensures e.key == o.key && e.size == o.size && e.etag == o.etag && e.lastModified == o.lastModified
    ensures o.storageClass.None? ==> e.storageClass == "STANDARD"
    ensures o.storageClass.Some? ==> e.storageClass == o.storageClass.value
  {
    FileEntry(o.key, o.size, o.lastModified, o.etag, o.storageClass.GetOr("STANDARD"))
  }

  /**
   * What `list_files` does: return the entries, raise a 500 for a client
   * error, or let any other error propagate.
   */
  datatype ListAnswer = Listed(files: seq<FileEntry>) | ListRaised(code: int, detail: string)
                      | ListPropagated(error: S3Store.S3Error)

  /**
   * `list_files` given the response: no `Contents` is an empty list; otherwise
   * one entry per object, in the response's order.  Only a `ClientError` is
   * caught and turned into a 500; any other error escapes unchanged.
   */
  method ListFiles(response: S3Store.Result<Option<seq<ListedObject>>>) returns (a: ListAnswer)
    ensures response.Failed? ==> (a.ListRaised? <==> response.error.ClientError?)
    ensures response.Failed? && response.error.ClientError? ==>
      a == ListRaised(500, "Failed to list files: " + response.error.message)
    ensures response.Failed? && !response.error.ClientError? ==> a == ListPropagated(response.error)
    ensures response.Ok? && response.value.None? ==> a == Listed([])
    ensures response.Ok? && response.value.Some? ==>
      a.Listed? && |a.files| == |response.value.value| &&
      forall i :: 0 <= i < |a.files| ==> a.files[i] == EntryOf(response.value.value[i])
  {
    match response {
      case Failed(e) =>
        if e.ClientError? {
          return ListRaised(500, "Failed to list files: " + e.message);
        }
        return ListPropagated(e);
      case Ok(contents) =>
        var files: seq<FileEntry> := [];
        if contents.Some? {
          var objects := contents.value;
          for i := 0 to |objects|
            invariant |files| == i
            invariant forall j :: 0 <= j < i ==> files[j] == EntryOf(objects[j])
          {
            files := files + [EntryOf(objects[i])];
          }
        }
        return Listed(files);
    }
  }
}
