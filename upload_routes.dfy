/**
 * `UploadRoutes`: the `/files` endpoints that upload one or several files to
 * S3 and record them, list the records page by page, and delete a record
 * together with its object.
 */
module UploadRoutes {
  import opened Wrappers
  import Text
  import FileValidation
  import Security
  import Metadata
  import S3Store
  import ServiceS3
  import ConfigService
  import FileRecords
  import FileVersions
  import FileListing

  /** The caller the token dependency found: their id and role. */
  datatype Caller = Caller(userId: int, role: string)

  /** `(current_user, status)` as the dependency returns it. */
  datatype AuthResult = AuthResult(user: Option<Caller>, status: int)

  predicate Authenticated(a: AuthResult)
  {
    a.status == 200 && a.user.Some?
  }

  /** What reading and scoring the content gave: fine, or an error with its status. */
  datatype ContentOutcome = ContentRead | ContentFailed(error: string, status: int)

  /**
   * One file of a request, with the answers the outside world gives while it
   * is handled: the content reader, the random identifier for its name, the
   * S3 send and signature, the status `create_upload_record` returns, and
   * the clean-up delete should one be needed.
   */
  datatype IncomingFile = IncomingFile(
    filename: Option<string>, size: Option<nat>, contentType: Option<string>,
    content: ContentOutcome, uuidHex: string,
    put: Option<S3Store.S3Error>, presign: S3Store.Result<string>,
    dbStatus: int, cleanup: Option<S3Store.S3Error>)

  datatype UploadedFileInfo = UploadedFileInfo(originalFilename: Option<string>, s3Key: string, fileUrl: string,
                                               fileSize: Option<nat>, contentType: Option<string>)

  datatype UploadError = UploadError(filename: string, error: string, statusCode: int)

  /** `MultipleFileUploadResponse` */
  datatype UploadResponse = UploadResponse(
    success: bool, message: string, error: Option<string>, statusCode: int,
    uploadedFiles: seq<UploadedFileInfo>, totalUploaded: nat, totalFailed: nat, errors: Option<seq<UploadError>>)

  /** What a handler does: answer with a response body, or raise an `HTTPException`. */
  datatype Reply = Respond(response: UploadResponse) | RaiseHttp(code: int, detail: string)

  /** The file passes `validate_file_basic`. */
  predicate Admissible(f: IncomingFile)
  {
    FileValidation.BasicVerdict(f.filename, f.size) == FileValidation.Accepted
  }

  /** The file reaches the S3 send: it validated and its content was read. */
  predicate Attempted(f: IncomingFile)
  {
    Admissible(f) && f.content.ContentRead?
  }

  function Described(f: IncomingFile): ServiceS3.UploadedFile
  {
    ServiceS3.UploadedFile(f.size, f.contentType)
  }

  /** `file.filename or "unknown"` */
  function NameOrUnknown(f: IncomingFile): string
  {
    if FileValidation.Truthy(f.filename) then f.filename.value else "unknown"
  }

  /** A response for a single file that failed at some step. */
  function SingleFailure(f: IncomingFile, message: string, error: string, code: int): (r: UploadResponse)
    ensures !r.success && r.totalUploaded == 0 && r.totalFailed == 1 && r.uploadedFiles == []
    ensures r.statusCode == code && r.errors == Some([UploadError(NameOrUnknown(f), error, code)])
  {
    UploadResponse(false, message, Some(error), code, [], 0, 1, Some([UploadError(NameOrUnknown(f), error, code)]))
  }

  // ---------------------------------------------------------------- single upload

  /**
   * The name `generate_safe_filename` gives the file.  Only used once the
   * file has passed validation, when its filename is present.
   */
  function SafeName(f: IncomingFile, custom: Option<string>): string
    requires Security.IsHex32(f.uuidHex)
  {
    Security.GenerateSafeFilename(f.filename.GetOr(""), custom, f.uuidHex).name
  }

  /** The object key of a single upload: the safe name, under the folder when one is given. */
  function SingleKey(f: IncomingFile, folder: Option<string>, custom: Option<string>): string
    requires Security.IsHex32(f.uuidHex)
  {
    ServiceS3.ObjectKey(SafeName(f, custom), folder)
  }

  /** The metadata text parses to an object, or is absent. */
  predicate MetadataOk(metadata: Option<string>, parse: Metadata.ParseOutcome)
  {
    Metadata.ParseMetadata(metadata, parse).error.None?
  }

  /**
   * What each step of `upload_file` answers for a request: the caller check,
   * the validation, the content reader, the S3 service, the metadata parser
   * and the record insert.  A step is only consulted when every step before
   * it went through.
   */
  datatype SingleSteps = SingleSteps(
    authStatus: int, authenticated: bool, shownName: string, originalFilename: Option<string>,
    verdict: FileValidation.Verdict, content: ContentOutcome, upload: ServiceS3.UploadResult,
    metadataError: Option<string>, metadataStatus: int, dbStatus: int)

  /** The answers for one request. */
  function StepsOf(auth: AuthResult, f: IncomingFile, folder: Option<string>, custom: Option<string>,
                   metadata: Option<string>, parse: Metadata.ParseOutcome): SingleSteps
    requires Security.IsHex32(f.uuidHex)
  {
    var parsed := Metadata.ParseMetadata(metadata, parse);
    SingleSteps(auth.status, Authenticated(auth), NameOrUnknown(f), f.filename,
                FileValidation.BasicVerdict(f.filename, f.size), f.content,
                ServiceS3.UploadOutcome(Described(f), ServiceS3.Name(SafeName(f, custom)), folder, f.put, f.presign),
                parsed.error, parsed.code.GetOr(0), f.dbStatus)
  }

  /** The request reached the S3 send. */
  predicate ReachesSend(s: SingleSteps)
  {
    s.authenticated && s.verdict.Accepted? && s.content.ContentRead?
  }

  /** The S3 service stored and signed the file: from here a failure deletes the object again. */
  predicate Signed(s: SingleSteps)
  {
    ReachesSend(s) && s.upload.Uploaded?
  }

  /** Every step went through. */
  predicate AllStepsPass(s: SingleSteps)
  {
    Signed(s) && s.metadataError.None? && s.dbStatus == 201
  }

  /** Where `upload_file` stopped: at the caller, at a refused step, at the S3 call, or at the end. */
  datatype SingleStage =
    | Unauthenticated
    | Refused(message: string, error: string, code: int)
    | SendRaised(code: int, detail: string)
    | Recorded(info: UploadedFileInfo)

  /** The stage reached once the file has gone to the S3 service. */
  function SentStage(upload: ServiceS3.UploadResult, metadataError: Option<string>, metadataStatus: int, dbStatus: int,
                     originalFilename: Option<string>): SingleStage
  {
    match upload
    case Raised(code, detail) => SendRaised(code, detail)
    case Uploaded(_, key, url, size, ctype, _) =>
      if metadataError.Some? then Refused("Metadata parsing failed", metadataError.value, metadataStatus)
      else if dbStatus != 201 then
        Refused("Database record creation failed", "Failed to create database record", dbStatus)
      else Recorded(UploadedFileInfo(originalFilename, key, url, size, ctype))
  }

  /** The step at which `upload_file` stops, and what it knows there. */
  function StageOf(s: SingleSteps): SingleStage
  {
    if !s.authenticated then Unauthenticated
    else if s.verdict.Rejected? then Refused("File validation failed", s.verdict.message, s.verdict.code)
    else if s.content.ContentFailed? then Refused("File content processing failed", s.content.error, s.content.status)
    else SentStage(s.upload, s.metadataError, s.metadataStatus, s.dbStatus, s.originalFilename)
  }

  /**
   * Only a request whose every step passes reaches the end, with the stored
   * object's key, URL, size and type; a raising S3 service is re-raised; a
   * failure after the object was signed is a refused step.
   */
  lemma StageOutcomes(s: SingleSteps)
    ensures StageOf(s).Unauthenticated? <==> !s.authenticated
    ensures StageOf(s).Recorded? <==> AllStepsPass(s)
    ensures StageOf(s).Recorded? ==>
      StageOf(s).info == UploadedFileInfo(s.originalFilename, s.upload.s3Key, s.upload.fileUrl,
                                          s.upload.fileSize, s.upload.contentType)
    ensures StageOf(s).SendRaised? <==> ReachesSend(s) && s.upload.Raised?
    ensures StageOf(s).SendRaised? ==> StageOf(s).code == s.upload.code
    ensures Signed(s) && !AllStepsPass(s) ==> StageOf(s).Refused?
  {
  }

  /** The answer given at each stage. */
  function ReplyOf(authStatus: int, shownName: string, stage: SingleStage): Reply
  {
    match stage
    case Unauthenticated =>
      Respond(UploadResponse(false, "Authentication failed", Some("Invalid or expired token"), authStatus,
        [], 0, 1, Some([UploadError(shownName, "Authentication failed", authStatus)])))
    case Refused(message, error, code) =>
      Respond(UploadResponse(false, message, Some(error), code, [], 0, 1, Some([UploadError(shownName, error, code)])))
    case SendRaised(code, detail) => RaiseHttp(code, detail)
    case Recorded(info) =>
      Respond(UploadResponse(true, "File uploaded and recorded successfully", None, 201, [info], 1, 0, None))
  }

  /**
   * Every answer short of success reports exactly one failed file, under the
   * name shown for the file and with the status of the step that failed; only the last
   * stage succeeds, with the one stored file.
   */
  lemma ReplyShapes(authStatus: int, shownName: string, stage: SingleStage)
    ensures var r := ReplyOf(authStatus, shownName, stage);
      (r.Respond? && r.response.success <==> stage.Recorded?) && (r.RaiseHttp? <==> stage.SendRaised?)
    ensures var r := ReplyOf(authStatus, shownName, stage);
      stage.Recorded? ==> r.response.uploadedFiles == [stage.info] && r.response.statusCode == 201 &&
                          r.response.totalUploaded == 1 && r.response.totalFailed == 0 && r.response.errors.None?
    ensures var r := ReplyOf(authStatus, shownName, stage);
      r.Respond? && !r.response.success ==>
      r.response.totalUploaded == 0 && r.response.totalFailed == 1 && r.response.uploadedFiles == [] &&
      r.response.errors.Some? && |r.response.errors.value| == 1 &&
      r.response.errors.value[0].filename == shownName && r.response.errors.value[0].statusCode == r.response.statusCode
    ensures var r := ReplyOf(authStatus, shownName, stage);
      stage.Refused? ==> r.response.statusCode == stage.code && r.response.message == stage.message
  {
  }

  /** The answer of `upload_file`. */
  function SingleReply(auth: AuthResult, f: IncomingFile, folder: Option<string>, custom: Option<string>,
                       metadata: Option<string>, parse: Metadata.ParseOutcome): Reply
    requires Security.IsHex32(f.uuidHex)
  {
    ReplyOf(auth.status, NameOrUnknown(f), StageOf(StepsOf(auth, f, folder, custom, metadata, parse)))
  }

  /**
   * The part of `upload_file` from the S3 call on: send and sign, parse the
   * metadata, insert the record, and delete the object again when either of
   * the last two fails.
   */
  method SendAndRecord(s3: ServiceS3.S3Service, f: IncomingFile, name: string, folder: Option<string>,
                       metadata: Option<string>, parse: Metadata.ParseOutcome)
    returns (stage: SingleStage, deletes: seq<string>)
    modifies s3.bucket
    ensures var parsed := Metadata.ParseMetadata(metadata, parse);
      var upload := ServiceS3.UploadOutcome(Described(f), ServiceS3.Name(name), folder, f.put, f.presign);
      stage == SentStage(upload, parsed.error, parsed.code.GetOr(0), f.dbStatus, f.filename)
    ensures deletes == if f.put.None? && f.presign.Ok? && !(MetadataOk(metadata, parse) && f.dbStatus == 201)
                       then [ServiceS3.ObjectKey(name, folder)] else []
    ensures s3.bucket.objects == SendEffect(old(s3.bucket.objects), f, ServiceS3.ObjectKey(name, folder),
                                            !MetadataOk(metadata, parse) || f.dbStatus != 201)
  {
    deletes := [];
    var result := s3.UploadFile(Described(f), ServiceS3.Name(name), folder, f.put, f.presign);
    if result.Raised? {
      return SendRaised(result.code, result.detail), [];
    }
    var parsed := Metadata.ParseMetadata(metadata, parse);
    if parsed.error.Some? {
      var _, _ := s3.DeleteFile(result.s3Key, f.cleanup);
      return Refused("Metadata parsing failed", parsed.error.value, parsed.code.value), [result.s3Key];
    }
    if f.dbStatus != 201 {
      var _, _ := s3.DeleteFile(result.s3Key, f.cleanup);
      return Refused("Database record creation failed", "Failed to create database record", f.dbStatus), [result.s3Key];
    }
    stage := Recorded(UploadedFileInfo(f.filename, result.s3Key, result.fileUrl, result.fileSize, result.contentType));
  }

  /**
   * `upload_file`: the answer `SingleReply` describes.  Once the object has
   * been sent and signed, a metadata or record failure deletes it before the
   * failure is answered (`deletes` lists the keys the handler asks S3 to
   * delete); a failed send or signature deletes nothing.
   */
  method UploadFile(s3: ServiceS3.S3Service, auth: AuthResult, f: IncomingFile, folder: Option<string>,
                    custom: Option<string>, metadata: Option<string>, parse: Metadata.ParseOutcome)
    returns (reply: Reply, deletes: seq<string>)
    requires Security.IsHex32(f.uuidHex)
    modifies s3.bucket
    ensures reply == SingleReply(auth, f, folder, custom, metadata, parse)
    ensures var s := StepsOf(auth, f, folder, custom, metadata, parse);
      deletes == if Signed(s) && !AllStepsPass(s) then [SingleKey(f, folder, custom)] else []
    ensures !ReachesSend(StepsOf(auth, f, folder, custom, metadata, parse)) ==>
      s3.bucket.objects == old(s3.bucket.objects)
    ensures ReachesSend(StepsOf(auth, f, folder, custom, metadata, parse)) ==>
      s3.bucket.objects ==
      SendEffect(old(s3.bucket.objects), f, SingleKey(f, folder, custom), !MetadataOk(metadata, parse) || f.dbStatus != 201)
  {
    ghost var steps := StepsOf(auth, f, folder, custom, metadata, parse);
    var stage: SingleStage;
    deletes := [];
    if !Authenticated(auth) {
      stage := Unauthenticated;
    } else {
      var verdict := FileValidation.ValidateFileBasic(f.filename, f.size);
      if verdict.Rejected? {
        stage := Refused("File validation failed", verdict.message, verdict.code);
      } else if f.content.ContentFailed? {
        stage := Refused("File content processing failed", f.content.error, f.content.status);
      } else {
        assert ReachesSend(steps);
        // the custom name, when given, is never empty, so the name is always generated
        var filename := Security.GenerateSafeFilename(f.filename.value, custom, f.uuidHex).name;
        assert filename == SafeName(f, custom);
        stage, deletes := SendAndRecord(s3, f, filename, folder, metadata, parse);
      }
    }
    assert stage == StageOf(steps);
    reply := ReplyOf(auth.status, NameOrUnknown(f), stage);
  }

  // ---------------------------------------------------------------- multiple upload

  /** Most files one request may carry. */
  const MAX_FILES_PER_REQUEST: nat := 50

  /** `file.filename or f"file_{i+1}"` */
  function Label(f: IncomingFile, i: nat): string
  {
    if FileValidation.Truthy(f.filename) then f.filename.value else "file_" + Text.NatToString(i + 1)
  }

  /** The stored name of a file of a batch: a generated name, after the sanitised prefix when there is one. */
  function BatchName(f: IncomingFile, prefix: Option<string>): string
    requires Admissible(f) && Security.IsHex32(f.uuidHex)
  {
    var name := Security.GenerateSafeFilename(f.filename.value, None, f.uuidHex).name;
    if prefix.Some? then prefix.value + "_" + name else name
  }

  /** What became of one file of a batch: recorded, or an error entry. */
  datatype Fate = Stored(info: UploadedFileInfo) | Failed(error: UploadError)

  /** The fate of file `i` of a batch, step by step as the loop body decides it. */
  function FateOf(f: IncomingFile, i: nat, folder: Option<string>, prefix: Option<string>): Fate
    requires Security.IsHex32(f.uuidHex)
  {
    var v := FileValidation.BasicVerdict(f.filename, f.size);
    if v.Rejected? then Failed(UploadError(Label(f, i), v.message, v.code))
    else match f.content
      case ContentFailed(e, st) => Failed(UploadError(Label(f, i), e, st))
      case ContentRead =>
        match ServiceS3.UploadOutcome(Described(f), ServiceS3.Name(BatchName(f, prefix)), folder, f.put, f.presign)
        case Raised(code, detail) => Failed(UploadError(Label(f, i), detail, code))
        case Uploaded(_, key, url, size, ctype, _) =>
          if f.dbStatus != 201 then Failed(UploadError(Label(f, i), "Failed to create database record", f.dbStatus))
          else Stored(UploadedFileInfo(f.filename, key, url, size, ctype))
  }

  predicate AllHex(files: seq<IncomingFile>)
  {
    forall i :: 0 <= i < |files| ==> Security.IsHex32(files[i].uuidHex)
  }

  /** The fates of the first `n` files. */
  function Fates(files: seq<IncomingFile>, n: nat, folder: Option<string>, prefix: Option<string>): (r: seq<Fate>)
    requires n <= |files| && AllHex(files)
    ensures |r| == n
    ensures forall i :: 0 <= i < n ==> r[i] == FateOf(files[i], i, folder, prefix)
  {
    if n == 0 then [] else Fates(files, n - 1, folder, prefix) + [FateOf(files[n - 1], n - 1, folder, prefix)]
  }

  /** The `uploaded_files` list: the stored fates, in order. */
  function UploadedOf(fates: seq<Fate>): seq<UploadedFileInfo>
  {
    if fates == [] then []
    else UploadedOf(fates[..|fates| - 1]) + (if fates[|fates| - 1].Stored? then [fates[|fates| - 1].info] else [])
  }

  /** The `errors` list: the failed fates, in order. */
  function ErrorsOf(fates: seq<Fate>): seq<UploadError>
  {
    if fates == [] then []
    else ErrorsOf(fates[..|fates| - 1]) + (if fates[|fates| - 1].Failed? then [fates[|fates| - 1].error] else [])
  }

  /** Every file lands in exactly one of the two lists. */
  lemma {:induction false} TallyAddsUp(fates: seq<Fate>)
    ensures |UploadedOf(fates)| + |ErrorsOf(fates)| == |fates|
  {
    if fates != [] {
      TallyAddsUp(fates[..|fates| - 1]);
    }
  }

  /** The stored files are counted exactly as the fates that stored them. */
  lemma {:induction false} AllStoredMeansNoErrors(fates: seq<Fate>)
    ensures ErrorsOf(fates) == [] <==> forall i :: 0 <= i < |fates| ==> fates[i].Stored?
  {
    if fates != [] {
      var init := fates[..|fates| - 1];
      AllStoredMeansNoErrors(init);
      assert forall i :: 0 <= i < |init| ==> init[i] == fates[i];
    }
  }

  /** The summary message: all failed, all succeeded, or mixed. */
  function TallyMessage(succeeded: nat, failed: nat): (m: string)
    ensures succeeded == 0 ==> m == "All " + Text.NatToString(failed) + " files failed to upload"
    ensures succeeded > 0 && failed == 0 ==> m == "All " + Text.NatToString(succeeded) + " files uploaded successfully"
    ensures succeeded > 0 && failed > 0 ==>
      m == "Upload completed with mixed results. Success: " + Text.NatToString(succeeded) + ", Failed: " + Text.NatToString(failed)
  {
    if succeeded == 0 then "All " + Text.NatToString(failed) + " files failed to upload"
    else if failed == 0 then "All " + Text.NatToString(succeeded) + " files uploaded successfully"
    else "Upload completed with mixed results. Success: " + Text.NatToString(succeeded) + ", Failed: " + Text.NatToString(failed)
  }

  /** The file was sent: the bucket holds its object from then on. */
  predicate BatchSent(f: IncomingFile)
  {
    Attempted(f) && f.put.None?
  }

  /** The file was sent and signed but its record failed: its object is deleted again. */
  predicate Compensated(f: IncomingFile)
  {
    BatchSent(f) && f.presign.Ok? && f.dbStatus != 201
  }

  /**
   * The bucket after a file that reached the send is handled: the object is
   * stored once the send went through, and deleted again when signing
   * succeeded, the record failed and the clean-up delete went through.
   */
  function SendEffect(objects: map<string, S3Store.StoredObject>, f: IncomingFile, key: string, recordFails: bool)
    : map<string, S3Store.StoredObject>
  {
    if f.put.Some? then objects
    else
      var stored := objects[key := S3Store.StoredObject(f.size, f.contentType)];
      if f.presign.Ok? && recordFails && f.cleanup.None? then stored - {key} else stored
  }

  /** The bucket after one file of a batch. */
  function BucketStep(objects: map<string, S3Store.StoredObject>, f: IncomingFile, folder: Option<string>,
                      prefix: Option<string>): map<string, S3Store.StoredObject>
    requires Security.IsHex32(f.uuidHex)
  {
    if Attempted(f) then SendEffect(objects, f, ServiceS3.ObjectKey(BatchName(f, prefix), folder), f.dbStatus != 201) else objects
  }

  /** The bucket after the first `n` files. */
  function BucketAfter(objects: map<string, S3Store.StoredObject>, files: seq<IncomingFile>, n: nat,
                       folder: Option<string>, prefix: Option<string>): map<string, S3Store.StoredObject>
    requires n <= |files| && AllHex(files)
  {
    if n == 0 then objects
    else BucketStep(BucketAfter(objects, files, n - 1, folder, prefix), files[n - 1], folder, prefix)
  }

  /** The keys deleted again for the first `n` files. */
  function Compensations(files: seq<IncomingFile>, n: nat, folder: Option<string>, prefix: Option<string>): seq<string>
    requires n <= |files| && AllHex(files)
  {
    if n == 0 then []
    else
      var last := if Compensated(files[n - 1]) then [ServiceS3.ObjectKey(BatchName(files[n - 1], prefix), folder)] else [];
      Compensations(files, n - 1, folder, prefix) + last
  }

  /** A file whose object is deleted again is reported as failed, with the record's status. */
  lemma CompensatedFileFails(f: IncomingFile, i: nat, folder: Option<string>, prefix: Option<string>)
    requires Security.IsHex32(f.uuidHex) && Compensated(f)
    ensures FateOf(f, i, folder, prefix) == Failed(UploadError(Label(f, i), "Failed to create database record", f.dbStatus))
  {
  }

  /** A file reported as stored keeps its object in the bucket, under the key the report gives. */
  lemma StoredFileIsInBucket(objects: map<string, S3Store.StoredObject>, f: IncomingFile, i: nat,
                             folder: Option<string>, prefix: Option<string>)
    requires Security.IsHex32(f.uuidHex) && FateOf(f, i, folder, prefix).Stored?
    ensures FateOf(f, i, folder, prefix).info.s3Key in BucketStep(objects, f, folder, prefix)
    ensures BucketStep(objects, f, folder, prefix)[FateOf(f, i, folder, prefix).info.s3Key] ==
            S3Store.StoredObject(f.size, f.contentType)
  {
    var up := ServiceS3.UploadOutcome(Described(f), ServiceS3.Name(BatchName(f, prefix)), folder, f.put, f.presign);
    assert Attempted(f) && up.Uploaded? && f.dbStatus == 201;
    assert FateOf(f, i, folder, prefix).info.s3Key == ServiceS3.ObjectKey(BatchName(f, prefix), folder);
  }

  lemma FatesStep(files: seq<IncomingFile>, n: nat, folder: Option<string>, prefix: Option<string>)
    requires n < |files| && AllHex(files)
    ensures Fates(files, n + 1, folder, prefix) == Fates(files, n, folder, prefix) + [FateOf(files[n], n, folder, prefix)]
  {
  }

  lemma TallyStep(fates: seq<Fate>, x: Fate)
    ensures UploadedOf(fates + [x]) == UploadedOf(fates) + (if x.Stored? then [x.info] else [])
    ensures ErrorsOf(fates + [x]) == ErrorsOf(fates) + (if x.Failed? then [x.error] else [])
  {
    assert (fates + [x])[..|fates|] == fates;
  }

  /** The S3 part of one pass: send, sign, and delete again when the record fails. */
  method SendOne(s3: ServiceS3.S3Service, f: IncomingFile, name: string, folder: Option<string>)
    returns (result: ServiceS3.UploadResult, deleted: seq<string>)
    modifies s3.bucket
    ensures result == ServiceS3.UploadOutcome(Described(f), ServiceS3.Name(name), folder, f.put, f.presign)
    ensures s3.bucket.objects == SendEffect(old(s3.bucket.objects), f, ServiceS3.ObjectKey(name, folder), f.dbStatus != 201)
    ensures deleted == if result.Uploaded? && f.dbStatus != 201 then [result.s3Key] else []
  {
    result := s3.UploadFile(Described(f), ServiceS3.Name(name), folder, f.put, f.presign);
    deleted := [];
    if result.Uploaded? && f.dbStatus != 201 {
      var _, _ := s3.DeleteFile(result.s3Key, f.cleanup);
      deleted := [result.s3Key];
    }
  }

  /** One pass of the loop of `upload_multiple_files`. */
  method UploadOne(s3: ServiceS3.S3Service, f: IncomingFile, i: nat, folder: Option<string>, prefix: Option<string>)
    returns (fate: Fate, deleted: seq<string>)
    requires Security.IsHex32(f.uuidHex)
    modifies s3.bucket
    ensures fate == FateOf(f, i, folder, prefix)
    ensures !Attempted(f) ==> s3.bucket.objects == old(s3.bucket.objects)
    ensures Attempted(f) ==> s3.bucket.objects == SendEffect(old(s3.bucket.objects), f, ServiceS3.ObjectKey(BatchName(f, prefix), folder), f.dbStatus != 201)
    ensures deleted == if Compensated(f) then [ServiceS3.ObjectKey(BatchName(f, prefix), folder)] else []
  {
    var verdict := FileValidation.ValidateFileBasic(f.filename, f.size);
    if verdict.Rejected? {
      return Failed(UploadError(Label(f, i), verdict.message, verdict.code)), [];
    }
    if f.content.ContentFailed? {
      return Failed(UploadError(Label(f, i), f.content.error, f.content.status)), [];
    }
    var result;
    result, deleted := SendOne(s3, f, BatchName(f, prefix), folder);
    match result {
      case Raised(code, detail) =>
        fate := Failed(UploadError(Label(f, i), detail, code));
      case Uploaded(_, key, url, size, ctype, _) =>
        if f.dbStatus != 201 {
          fate := Failed(UploadError(Label(f, i), "Failed to create database record", f.dbStatus));
        } else {
          fate := Stored(UploadedFileInfo(f.filename, key, url, size, ctype));
        }
    }
  }

  /** The loop of `upload_multiple_files`: every file in turn, each result added to its list. */
  method UploadEach(s3: ServiceS3.S3Service, files: seq<IncomingFile>, folder: Option<string>, prefix: Option<string>)
    returns (uploaded: seq<UploadedFileInfo>, errors: seq<UploadError>, deletes: seq<string>)
    requires AllHex(files)
    modifies s3.bucket
    ensures uploaded == UploadedOf(Fates(files, |files|, folder, prefix))
    ensures errors == ErrorsOf(Fates(files, |files|, folder, prefix))
    ensures deletes == Compensations(files, |files|, folder, prefix)
    ensures s3.bucket.objects == BucketAfter(old(s3.bucket.objects), files, |files|, folder, prefix)
  {
    uploaded, errors, deletes := [], [], [];
    ghost var start := s3.bucket.objects;
    ghost var objs := start;
    for i := 0 to |files|
      invariant uploaded == UploadedOf(Fates(files, i, folder, prefix))
      invariant errors == ErrorsOf(Fates(files, i, folder, prefix))
      invariant deletes == Compensations(files, i, folder, prefix)
      invariant objs == BucketAfter(start, files, i, folder, prefix)
      invariant s3.bucket.objects == objs
    {
      var fate, deleted := UploadOne(s3, files[i], i, folder, prefix);
      objs := BucketStep(objs, files[i], folder, prefix);
      FatesStep(files, i, folder, prefix);
      TallyStep(Fates(files, i, folder, prefix), fate);
      if fate.Stored? {
        uploaded := uploaded + [fate.info];
      } else {
        errors := errors + [fate.error];
      }
      deletes := deletes + deleted;
    }
  }

  /** The sanitised prefix, when a non-empty one is given. */
  function SafePrefix(prefix: Option<string>): (p: Option<string>)
    ensures p.Some? <==> FileValidation.Truthy(prefix)
    ensures p.Some? ==> p.value == FileValidation.ValidateFilename(prefix.value).name && p.value != ""
  {
    if FileValidation.Truthy(prefix) then Some(FileValidation.ValidateFilename(prefix.value).name) else None
  }

  /** The batch is accepted for processing: an authenticated caller, 1 to 50 files, usable metadata. */
  predicate BatchAccepted(auth: AuthResult, files: seq<IncomingFile>, metadata: Option<string>, parse: Metadata.ParseOutcome)
  {
    Authenticated(auth) && 0 < |files| <= MAX_FILES_PER_REQUEST && MetadataOk(metadata, parse)
  }

  /**
   * The answer to an accepted batch: 201 with the stored files and the failed
   * ones in the order of `fates`, the tally and its message, the keys deleted
   * again, and the bucket `before` turned into `after` by the sends.
   */
  predicate BatchAnswered(reply: Reply, deletes: seq<string>, files: seq<IncomingFile>, folder: Option<string>,
                          safePrefix: Option<string>, before: map<string, S3Store.StoredObject>,
                          after: map<string, S3Store.StoredObject>)
    requires AllHex(files)
  {
    var fates := Fates(files, |files|, folder, safePrefix);
    reply.Respond? && reply.response.success && reply.response.statusCode == 201 &&
    reply.response.uploadedFiles == UploadedOf(fates) &&
    reply.response.totalUploaded == |UploadedOf(fates)| &&
    reply.response.totalFailed == |ErrorsOf(fates)| &&
    reply.response.totalUploaded + reply.response.totalFailed == |files| &&
    reply.response.errors == (if ErrorsOf(fates) == [] then None else Some(ErrorsOf(fates))) &&
    reply.response.message == TallyMessage(|UploadedOf(fates)|, |ErrorsOf(fates)|) &&
    deletes == Compensations(files, |files|, folder, safePrefix) &&
    after == BucketAfter(before, files, |files|, folder, safePrefix)
  }

  /** The part of `upload_multiple_files` after the checks: every file in turn, then the tally. */
  method UploadBatch(s3: ServiceS3.S3Service, files: seq<IncomingFile>, folder: Option<string>, safePrefix: Option<string>)
    returns (reply: Reply, deletes: seq<string>)
    requires AllHex(files)
    modifies s3.bucket
    ensures BatchAnswered(reply, deletes, files, folder, safePrefix, old(s3.bucket.objects), s3.bucket.objects)
  {
    var uploaded, errors;
    uploaded, errors, deletes := UploadEach(s3, files, folder, safePrefix);
    TallyAddsUp(Fates(files, |files|, folder, safePrefix));
    var message := TallyMessage(|uploaded|, |errors|);
    reply := Respond(UploadResponse(true, message, None, 201, uploaded, |uploaded|, |errors|,
                                    if errors == [] then None else Some(errors)));
  }

  /**
   * `upload_multiple_files`.  A bad caller, no files, more than 50 files or
   * unusable metadata raise before any file is touched; otherwise every file
   * is handled in turn and lands in exactly one of the two lists, and the
   * response is 201 with the tally.
   */
  method UploadMultipleFiles(s3: ServiceS3.S3Service, auth: AuthResult, files: seq<IncomingFile>,
                             folder: Option<string>, prefix: Option<string>,
                             metadata: Option<string>, parse: Metadata.ParseOutcome)
    returns (reply: Reply, deletes: seq<string>)
    requires AllHex(files)
    modifies s3.bucket
    ensures !Authenticated(auth) ==> reply == RaiseHttp(auth.status, "Authentication failed: Invalid or expired token")
    ensures Authenticated(auth) && |files| == 0 ==> reply == RaiseHttp(400, "No files provided")
    ensures Authenticated(auth) && |files| > MAX_FILES_PER_REQUEST ==>
      reply == RaiseHttp(400, "Too many files. Maximum 50 files per request")
    ensures Authenticated(auth) && 0 < |files| <= MAX_FILES_PER_REQUEST && !MetadataOk(metadata, parse) ==>
      reply.RaiseHttp? && reply.code == Metadata.ParseMetadata(metadata, parse).code.value
    ensures !BatchAccepted(auth, files, metadata, parse) ==>
      reply.RaiseHttp? && deletes == [] && s3.bucket.objects == old(s3.bucket.objects)
    ensures BatchAccepted(auth, files, metadata, parse) ==>
      BatchAnswered(reply, deletes, files, folder, SafePrefix(prefix), old(s3.bucket.objects), s3.bucket.objects)
  {
    deletes := [];
    if !Authenticated(auth) {
      return RaiseHttp(auth.status, "Authentication failed: Invalid or expired token"), [];
    }
    if |files| == 0 {
      return RaiseHttp(400, "No files provided"), [];
    }
    if |files| > MAX_FILES_PER_REQUEST {
      return RaiseHttp(400, "Too many files. Maximum 50 files per request"), [];
    }
    var parsed := Metadata.ParseMetadata(metadata, parse);
    if parsed.error.Some? {
      return RaiseHttp(parsed.code.value, parsed.error.value), [];
    }
    reply, deletes := UploadBatch(s3, files, folder, SafePrefix(prefix));
  }

  // ---------------------------------------------------------------- listing

  /** The owner filter: a non-admin always lists their own files. */
  function OwnerFilter(caller: Caller, userId: Option<string>): (u: Option<string>)
    ensures caller.role != "admin" ==> u == Some(Text.IntToString(caller.userId))
    ensures caller.role == "admin" ==> u == userId
  {
    if caller.role != "admin" then Some(Text.IntToString(caller.userId)) else userId
  }

  /** The search text: an empty or single-blank search is no search. */
  function SearchFilter(search: Option<string>): (s: Option<string>)
    ensures search == Some("") || search == Some(" ") ==> s.None?
    ensures !(search == Some("") || search == Some(" ")) ==> s == search
  {
    if search == Some("") || search == Some(" ") then None else search
  }

  /** The first record of page `page` (counted from 1). */
  function PageOffset(page: int, limit: int): (o: int)
    requires page >= 1 && limit >= 1
    ensures o >= 0
  {
    (page - 1) * limit
  }

  /** `max(1, (total + limit - 1) // limit)`: the number of pages, at least one. */
  function TotalPages(total: nat, limit: int): (p: int)
    requires limit >= 1
    ensures p >= 1
    ensures total == 0 ==> p == 1
    ensures total > 0 ==> (p - 1) * limit < total <= p * limit
  {
    var q := (total + limit - 1) / limit;
    assert q * limit <= total + limit - 1 < q * limit + limit;
    if q >= 1 then q else 1
  }

  /** The response data of a listing. */
  datatype ListData = ListData(records: seq<(FileRecords.FileRecord, Option<FileListing.UserDetails>)>,
                               totalCount: nat, page: int, limit: int, totalPages: int, showAllVersions: bool,
                               searchQuery: Option<string>, hasSearch: bool)

  /** `StandardResponse` of a listing. */
  datatype ListResponse = ListResponse(success: bool, message: string, statusCode: int, data: Option<ListData>)

  /** What `list_uploads` (every version; not modelled further) answered. */
  datatype AllVersionsAnswer =
    | AllVersions(records: seq<(FileRecords.FileRecord, Option<FileListing.UserDetails>)>, totalCount: nat,
                  searchQuery: Option<string>)
    | AllVersionsFailed(code: int)

  /** The arguments `list_current_versions` receives, by parameter name. */
  datatype CurrentVersionsCall = CurrentVersionsCall(userId: Option<string>, folder: Option<string>,
                                                     search: Option<string>, sortBy: Option<string>,
                                                     sortOrder: Option<string>, limit: FileListing.Arg,
                                                     offset: FileListing.Arg)

  /**
   * The call as the handler writes it, with `limit`, `offset` and the session
   * given by position: they land in `sort_by`, `sort_order` and `limit`, and
   * `offset` keeps its default.  A zero offset is falsy and reaches no order.
   */
  function CallAsWritten(userId: Option<string>, folder: Option<string>, search: Option<string>,
                         limit: int, offset: int): (c: CurrentVersionsCall)
    ensures c.limit == FileListing.Unconvertible && c.offset == FileListing.Absent
  {
    CurrentVersionsCall(userId, folder, search, Some(Text.IntToString(limit)),
                        if offset != 0 then Some(Text.IntToString(offset)) else None,
                        FileListing.Unconvertible, FileListing.Absent)
  }

  /** The call with `limit` and `offset` passed by name, as the handler evidently means it. */
  function CallByName(userId: Option<string>, folder: Option<string>, search: Option<string>,
                      limit: int, offset: int): (c: CurrentVersionsCall)
    ensures FileListing.PageParams(c.limit, c.offset) == (limit, offset)
  {
    CurrentVersionsCall(userId, folder, search, None, None, FileListing.IntArg(limit), FileListing.IntArg(offset))
  }

  function Run(c: CurrentVersionsCall, rows: FileVersions.Table, users: map<int, FileListing.UserDetails>,
               ordered: seq<nat>): (Option<FileListing.Listing>, int)
    requires FileListing.QueryAnswer(ordered, rows, users, c.userId, c.folder, c.search, c.sortBy)
  {
    FileListing.ListCurrentVersions(rows, users, c.userId, c.folder, c.search, c.sortBy, c.sortOrder, c.limit,
                                    c.offset, ordered)
  }

  /** A numeral never names a sort column, so the misplaced limit only ever selects the default order. */
  lemma NumeralSortsByDefault(n: int)
    ensures FileListing.SortSpec(Some(Text.IntToString(n)), "desc") == FileListing.Ordering(FileListing.CreatedAt, false, false)
  {
    var k := Text.Lower(Text.IntToString(n));
    var s := Text.IntToString(n);
    assert |k| > 0;
    if k[0] == '-' {
      assert FileListing.SortColumn(k).None?;
    } else {
      assert s[0] != '-';
      assert Text.IsDigitChar(s[0]) by { DigitsOfNonNegative(n); }
      assert FileListing.SortColumn(k).None?;
    }
  }

  lemma DigitsOfNonNegative(n: int)
    requires n >= 0
    ensures Text.IsDigits(Text.IntToString(n))
  {
    Text.DigitsValueOfNatToString(n);
  }

  /**
   * As written, the page the handler asks for has no effect: whatever `page`
   * and `limit` are, the service returns the first 100 current records.
   */
  lemma AsWrittenIgnoresPage(rows: FileVersions.Table, users: map<int, FileListing.UserDetails>, ordered: seq<nat>,
                             userId: Option<string>, folder: Option<string>, search: Option<string>,
                             limit: int, offset: int)
    requires FileListing.QueryAnswer(ordered, rows, users, userId, folder, search, None)
    ensures var c := CallAsWritten(userId, folder, search, limit, offset);
      FileListing.QueryAnswer(ordered, rows, users, c.userId, c.folder, c.search, c.sortBy) &&
      var r := Run(c, rows, users, ordered);
      r.1 == 200 <==> FileListing.FilterOf(userId, folder, search, None).Some?
    ensures var c := CallAsWritten(userId, folder, search, limit, offset);
      var r := Run(c, rows, users, ordered);
      r.1 == 200 ==> r.0.value.records == FileListing.RecordsOf(FileListing.Page(ordered, 100, 0), rows, users)
  {
    NumeralSortsByDefault(limit);
    var c := CallAsWritten(userId, folder, search, limit, offset);
    assert FileListing.FilterOf(userId, folder, search, c.sortBy) == FileListing.FilterOf(userId, folder, search, None);
  }

  /** Called by name, the service returns the records from `offset` on, `limit` of them at most. */
  lemma ByNameReturnsThePage(rows: FileVersions.Table, users: map<int, FileListing.UserDetails>, ordered: seq<nat>,
                             userId: Option<string>, folder: Option<string>, search: Option<string>,
                             limit: nat, offset: nat)
    requires FileListing.QueryAnswer(ordered, rows, users, userId, folder, search, None)
    ensures var r := Run(CallByName(userId, folder, search, limit, offset), rows, users, ordered);
      (r.1 == 200 <==> FileListing.FilterOf(userId, folder, search, None).Some?) &&
      (r.1 == 200 ==> r.0.value.records == FileListing.RecordsOf(FileListing.Page(ordered, limit, offset), rows, users))
  {
  }

  /**
   * `list_upload_records`, with the service called by name (see
   * `CallAsWritten` for the call as written).  The query bounds are checked
   * first (422); a failed authentication or service call is answered with
   * its status.  `ordered` is the database's answer to the current-versions
   * query; `allVersions` is what `list_uploads` answers.
   */
  function ListUploadRecords(rows: FileVersions.Table, users: map<int, FileListing.UserDetails>, ordered: seq<nat>,
                             auth: AuthResult, userId: Option<string>, folder: Option<string>,
                             search: Option<string>, showAllVersions: bool, limit: int, page: int,
                             allVersions: AllVersionsAnswer): (r: ListResponse)
    requires Authenticated(auth) ==>
      FileListing.QueryAnswer(ordered, rows, users, OwnerFilter(auth.user.value, userId), folder, SearchFilter(search), None)
    ensures r.success <==> r.data.Some?
    ensures r.success ==> r.statusCode == 200 && Authenticated(auth) && 1 <= limit <= 1000 && page >= 1
    ensures !(1 <= limit <= 1000 && page >= 1) ==> r.statusCode == 422
    ensures 1 <= limit <= 1000 && page >= 1 && !Authenticated(auth) ==> !r.success && r.statusCode == auth.status
    ensures r.success ==>
      r.data.value.page == page && r.data.value.limit == limit &&
      r.data.value.totalPages == TotalPages(r.data.value.totalCount, limit) &&
      r.data.value.hasSearch == SearchFilter(search).Some? && r.data.value.showAllVersions == showAllVersions
    ensures r.success && !showAllVersions ==>
      FileListing.FilterOf(OwnerFilter(auth.user.value, userId), folder, SearchFilter(search), None).Some?
    ensures r.success && !showAllVersions ==>
      forall i :: 0 <= i < |ordered| ==> ordered[i] in rows
    ensures r.success && !showAllVersions ==>
      var f := FileListing.FilterOf(OwnerFilter(auth.user.value, userId), folder, SearchFilter(search), None).value;
      r.data.value.totalCount == |FileListing.Candidates(rows, f, users)| &&
      r.data.value.records ==
        FileListing.RecordsOf(FileListing.Page(ordered, limit, PageOffset(page, limit)), rows, users)
  {
    if !(1 <= limit <= 1000 && page >= 1) then ListResponse(false, "Validation error", 422, None)
    else if !Authenticated(auth) then ListResponse(false, "Authentication failed", auth.status, None)
    else
      var owner := OwnerFilter(auth.user.value, userId);
      var s := SearchFilter(search);
      var offset := PageOffset(page, limit);
      if showAllVersions then
        match allVersions
        case AllVersionsFailed(code) =>
          ListResponse(false, "Failed to retrieve upload records", if code == 200 then 500 else code, None)
        case AllVersions(records, total, query) =>
          ListResponse(true, "Records retrieved successfully", 200,
            Some(ListData(records, total, page, limit, TotalPages(total, limit), true, query, s.Some?)))
      else
        var c := CallByName(owner, folder, s, limit, offset);
        var (listing, code) := Run(c, rows, users, ordered);
        if code != 200 then ListResponse(false, "Failed to retrieve upload records", code, None)
        else
          ListResponse(true, "Records retrieved successfully", 200,
            Some(ListData(listing.value.records, listing.value.totalCount, page, limit,
                          TotalPages(listing.value.totalCount, limit), false, listing.value.searchQuery, s.Some?)))
  }

  // ---------------------------------------------------------------- delete

  /** `DeleteFileResponse` */
  datatype DeleteResponse = DeleteResponse(success: bool, message: string, error: Option<string>, statusCode: int,
                                           deletedKey: Option<string>)

  /** `record["user_id"]` as the serialised row holds it: an integer, or `None`. */
  function OwnerValue(d: FileRecords.RecordDict): ConfigService.PyValue
  {
    if d.userId.Some? then ConfigService.PyInt(d.userId.value) else ConfigService.PyNone
  }

  /**
   * The ownership test as written: an admin, or a record whose `user_id`
   * equals the caller's id as text.
   */
  predicate MayDeleteAsWritten(caller: Caller, d: FileRecords.RecordDict)
  {
    caller.role == "admin" || OwnerValue(d) == ConfigService.PyStr(Text.IntToString(caller.userId))
  }

  /** As written, an integer never equals a string: only admins may delete, owners included. */
  lemma OwnersCannotDeleteAsWritten(caller: Caller, d: FileRecords.RecordDict)
    requires d.userId == Some(caller.userId) && caller.role != "admin"
    ensures !MayDeleteAsWritten(caller, d)
    ensures MayDelete(caller, d)
  {
  }

  /** The ownership test as intended: an admin, or the record's owner. */
  predicate MayDelete(caller: Caller, d: FileRecords.RecordDict)
  {
    caller.role == "admin" || d.userId == Some(caller.userId)
  }

  /** The record the key names passes every check before the S3 delete. */
  ghost predicate DeletionAllowed(rows: FileVersions.Table, auth: AuthResult, key: string, iso: nat -> string)
  {
    Authenticated(auth) && Text.Strip(key) != "" &&
    FileVersions.GetRecord(rows, key).1 == 200 &&
    MayDelete(auth.user.value, FileRecords.ToDict(FileVersions.GetRecord(rows, key).0.value, iso))
  }

  /**
   * `delete_upload_record`, with the ownership test as intended.  Nothing is
   * deleted unless every check passes; the object is deleted first, and the
   * row only once the object is gone.
   */
  method DeleteUploadRecord(table: FileVersions.FileTable, s3: ServiceS3.S3Service, auth: AuthResult, key: string,
                            s3Outcome: Option<S3Store.S3Error>, iso: nat -> string)
    returns (r: DeleteResponse)
    requires table.Valid()
    modifies table, s3.bucket
    ensures table.Valid() && table.nextId == old(table.nextId)
    ensures !DeletionAllowed(old(table.rows), auth, key, iso) ==>
      !r.success && table.rows == old(table.rows) && s3.bucket.objects == old(s3.bucket.objects)
    ensures Authenticated(auth) && Text.Strip(key) != "" && FileVersions.GetRecord(old(table.rows), key).1 == 200 ==>
      (r.statusCode == 403 <==> !DeletionAllowed(old(table.rows), auth, key, iso))
    ensures DeletionAllowed(old(table.rows), auth, key, iso) && s3Outcome.Some? ==>
      !r.success && r.statusCode == S3Store.DeleteStatus(s3Outcome).1 &&
      table.rows == old(table.rows) && s3.bucket.objects == old(s3.bucket.objects)
    ensures DeletionAllowed(old(table.rows), auth, key, iso) && s3Outcome.None? ==>
      r.success && r.statusCode == 200 && r.deletedKey == Some(key) &&
      table.rows == FileVersions.DeleteRecord(old(table.rows), key).0 &&
      s3.bucket.objects == old(s3.bucket.objects) - {key}
  {
    if !Authenticated(auth) {
      return DeleteResponse(false, "Authentication failed", Some("Invalid or expired token"), auth.status, None);
    }
    if key == "" || Text.Strip(key) == "" {
      return DeleteResponse(false, "Invalid S3 key", Some("S3 key cannot be empty"), 400, None);
    }
    var record, recordStatus := table.GetUploadRecord(key);
    if recordStatus == 404 {
      return DeleteResponse(false, "Record not found", Some("Record not found in database"), 404, Some(key));
    } else if recordStatus != 200 {
      return DeleteResponse(false, "Database error", Some("Failed to retrieve record from database"), recordStatus, Some(key));
    }
    if !MayDelete(auth.user.value, FileRecords.ToDict(record.value, iso)) {
      return DeleteResponse(false, "Permission denied", Some("You can only delete your own files"), 403, Some(key));
    }
    var s3Ok, s3Status := s3.DeleteFile(key, s3Outcome);
    if s3Status != 200 {
      return DeleteResponse(false, "S3 deletion failed", Some("S3 deletion failed"), s3Status, Some(key));
    }
    var dbOk, dbStatus := table.DeleteUploadRecord(key);
    if dbStatus != 200 {
      return DeleteResponse(false, "Database deletion failed",
        Some("File deleted from S3 but database record could not be removed"), dbStatus, Some(key));
    }
    return DeleteResponse(true, "File deleted successfully", None, 200, Some(key));
  }
}
