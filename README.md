# File uploads, books and users — a Dafny model

This project models the request-handling core of a FastAPI service. The service stores uploaded files in S3 and keeps a versioned record of every upload in PostgreSQL. It also manages books and users, keeps an action history and a login log, holds a typed key/value configuration table, and caches through Redis.

Each external store is replaced by an abstract one:

- a database table is a `map` or `seq` of rows held by a class;
- the S3 bucket is a map from object key to stored object;
- the Redis server is a map from key to text, with a map of expiries.

Whatever the outside world decides is an input of the operation. This covers whether a connection, a commit, a ping or an S3 call succeeds, the current time, random identifiers, password hashes, and what `json.loads` makes of a text. With those fixed, each handler and service is deterministic. It is modelled with the same branches, status codes and constants as the code, and proved against a specification:

- filename, extension and size validation;
- client address resolution;
- object-key and database-URL rewriting;
- the upload, list and delete routes with their compensating S3 deletes;
- file versioning: create, prune, update and restore, with proofs of which operations keep "one current version per filename" and of the upload and the update that break it;
- typed configuration with default seeding;
- the user, book, login and history stores with their conflict, 404 and paging rules;
- role checks and the token pre-check;
- health classification;
- the database health checker with its throttling and exponential backoff;
- the Redis connection-health flag and its cache operations;
- the fixed-window rate limiter;
- the request validators and the database CHECK constraints.

Where the written description of the system and its code disagree, the model follows the code.

Modules:

- `Wrappers`, `Text` and `Queries` are shared vocabulary:
  - `Option` and `Result`;
  - the Python string operations the code relies on (`strip`, `split`, `lower`, `int`, `str`);
  - the SELECT shapes: WHERE, ORDER BY time DESC, OFFSET/LIMIT and GROUP BY count.
- `Settings`, `DatabaseUrl`, `FileValidation`, `Security`, `Metadata`, `Schemas` and `DbConstraints` are pure functions with lemmas.
- Modules that own mutable state keep it in a class:
  - `FileVersions.FileTable`, `ConfigService.ConfigTable`, `FileHistory.HistoryLog`;
  - `LoginHistory.LoginLog`, `Users.UserTable`, `Books.BookTable`, `UploadsService.UploadTable`;
  - `S3Store.Bucket` with the two S3 clients `AppS3Service.S3Service` and `ServiceS3.S3Service`, `Redis.RedisService`, `RateLimiter.RateLimiterMiddleware`;
  - the checkers and managers of `DbHealth`.
- The route modules `UploadRoutes`, `AdminRoutes` and `HealthRoutes` call them.

## Model

| member | source | states |
|---|---|---|
| Access.ParseRole | app/schemas/users.py:9-13 | a text is recognised as a role only when it is that role's value |
| Access.RoleValueRoundTrip | app/schemas/users.py:9-13 | every role is recognised from its own value, so roles and values correspond one to one |
| Access.RequireRole | routes/dependencies.py:23-41 | failed authentication or no user gives 401; a role other than the required one or admin gives 403; otherwise the caller is admitted |
| Access.AdminPassesEveryRequirement | routes/dependencies.py:35 | an authenticated admin passes every role requirement |
| Access.RequirementsByRole | routes/dependencies.py:44-45 | `require_user` admits exactly users and admins, `require_admin` exactly admins; a moderator is refused by both with 403 |
| Access.AdminRequirementIsStrictest | routes/dependencies.py:35-44 | whoever passes `require_admin` passes every other requirement with the same answer |
| Access.RoleChecker | routes/users.py:16-24 | the required role or admin is admitted, anyone else gets 403 |
| Access.RoleCheckersAgree | routes/users.py:16-24 | for an authenticated caller the users-route check and the dependency check give the same answer |
| AdminRoutes.UpdateSystemConfig | api/v1/routes/admin.py:56-104 | a body without `value` is 400; otherwise the service status maps to 404, 403, 500 or 200; the value may be of any JSON type, passed on as it is |
| AdminRoutes.UpdateStatusesAreClosed | api/v1/routes/admin.py:64-104 | the update endpoint only ever answers 200, 400, 403, 404 or 500, whatever the service returns |
| AdminRoutes.UpdateAgainstTable | api/v1/routes/admin.py:70-90 | connected to the configuration table: a missing key gives 404, a read-only key 403, a database error 500, an editable key 200 |
| AdminRoutes.GetSystemConfig | api/v1/routes/admin.py:21-50 | a non-200 service status is raised unchanged; 200 returns the configuration |
| AppS3Service.UploadedFile.constructor | app/services/s3_service.py:21 | an upload starts unread, at position 0, with the given content and declared type |
| AppS3Service.StripChar | app/services/s3_service.py:73 | `strip('/')` removes every leading and trailing `/`: the result sits in the text with only `/` before and after it and neither starts nor ends with `/` |
| AppS3Service.StripCharIsTheTrim | app/services/s3_service.py:73 | any text obtained by removing only slashes from both ends until neither end is one is the result of `strip('/')`, so the trim is unique |
| AppS3Service.CleanFolder | app/services/s3_service.py:43-48 | the folder is stripped, and an empty folder counts as none |
| AppS3Service.ObjectKey | app/services/s3_service.py:70-74 | the key is the stripped filename, prefixed by the slash-trimmed folder and `/` when there is a folder; it always ends with the filename |
| AppS3Service.ObjectKeyOfPlainFolder | app/services/s3_service.py:70-74 | a folder without outer blanks or slashes is used unchanged in the key |
| AppS3Service.ChosenContentType | app/services/s3_service.py:79-81 | the declared content type is kept unless it is missing or blank, in which case it is `application/octet-stream`; the result is never empty |
| AppS3Service.UploadOutcome | app/services/s3_service.py:21-176 | 400 exactly when a check before sending fails (blank name, empty or unreadable file, bad bucket name) or the send raised a `ValueError`; any other failed send is 500; the upload succeeds exactly when the checks pass and the send goes through |
| AppS3Service.PutFailure | app/services/s3_service.py:134-176 | a `ValueError` from `upload_fileobj` is 400 carrying its text; every other failure of the send is 500 |
| AppS3Service.UploadedFields | app/services/s3_service.py:21-176 | a successful upload reports the stripped name, the object key, the size read, the chosen content type, the signed URL or, when signing failed, the public one, and the URL lifetime |
| AppS3Service.S3Service.constructor | app/services/s3_service.py:12-19 | the service holds the configured bucket name, region and bucket |
| AppS3Service.S3Service.UploadFile | app/services/s3_service.py:21-176 | the answer `UploadOutcome` gives; the bucket gains the object exactly on success; the file is rewound whenever it was read |
| AppS3Service.S3Service.SendObject | app/services/s3_service.py:70-135 | for a named, non-empty file, the answer `UploadOutcome` gives; the bucket gains the object under the answered key with its size and content type exactly on success, and is unchanged otherwise |
| AppS3Service.S3Service.DeleteFile | app/services/s3_service.py:178-202 | an empty key is `(False, 400)` with no call; otherwise the mapped status of the delete, the object leaving the bucket exactly on success |
| AppS3Service.GeneratePresignedUrl | app/services/s3_service.py:204-252 | an empty key is `(None, 400)` before any call; otherwise the signed request whose disposition names the key's last path segment |
| AppS3Service.GetFileInfo | app/services/s3_service.py:254-287 | an empty key is `(None, 400)`; otherwise the head fields with the content type defaulting to `application/octet-stream`, or 404/500 |
| S3Store.Bucket.constructor | app/services/s3_service.py:12-19 | a bucket starts empty |
| S3Store.Bucket.Put | app/services/s3_service.py:94-101 | a successful `upload_fileobj` stores the object under its key and changes nothing else |
| S3Store.Bucket.Remove | app/services/s3_service.py:187 | a successful `delete_object` removes exactly that key |
| S3Store.DeleteStatus | services/s3_service.py:83-101 | success is `(True, 200)`; `NoSuchKey` is 404 and every other failure 500 |
| S3Store.LookupErrorStatus | app/services/s3_service.py:239-252 | `NoSuchKey` is 404, `AccessDenied` 403 where the caller distinguishes it, anything else 500 |
| S3Store.DownloadName | app/services/s3_service.py:220 | the download name is the part of the key after its last `/` (the whole key when there is none) and holds no `/` |
| S3Store.DownloadNameOfFolderKey | app/services/s3_service.py:220 | the download name of `folder/name` is `name` whatever the folder |
| S3Store.ContentDisposition | app/services/s3_service.py:223-231 | `attachment` exactly when a download is asked for, else `inline`, followed by the download name |
| S3Store.Presign | services/s3_service.py:103-154 | a URL with 200 exactly when signing did not raise, carrying bucket, key, disposition and expiry; otherwise 404, 403 or 500 as mapped (the app service does the same after its empty-key check) |
| S3Store.FileInfoOf | services/s3_service.py:156-184 | the head response's fields with length 0 and metadata `{}` when absent, the content type left absent or defaulted as the caller says; 404 for `NoSuchKey`, 500 otherwise |
| ServiceS3.ObjectKey | services/s3_service.py:28 | the key is `folder/filename` for a non-empty folder, else the filename, with neither trimmed; it always ends with the filename |
| ServiceS3.UploadOutcome | services/s3_service.py:22-81 | a filename that is not a string is 400 with "Filename must be a string, got " and its type's text; a send or signature that raised a `ValueError` is 400 with its text; 400 exactly in those cases, any other failure 500; it succeeds exactly when the filename is a string and both calls go through, with the key, the signed URL and the declared size and type |
| ServiceS3.ClientFailure | services/s3_service.py:58-81 | a failed client call raising `ValueError` is 400 with the error's text; any other failure is 500 |
| ServiceS3.S3Service.constructor | services/s3_service.py:13-20 | the service holds the configured bucket |
| ServiceS3.S3Service.UploadFile | services/s3_service.py:22-81 | the answer `UploadOutcome` gives; the bucket holds the object once the send went through, even if signing then fails |
| ServiceS3.S3Service.DeleteFile | services/s3_service.py:83-101 | the mapped status of the delete, the object leaving the bucket exactly when the call went through |
| LegacyS3.UploadAnswer | s3_service.py:21-70 | the key is `ServiceS3.ObjectKey` of the filename and folder; every failure is 500 and there is no 400 branch, so a client `ValueError` is 500 "Upload failed: " and its text; when neither call raised a `ValueError`, the answer is the routes' service's answer for the same text filename |
| LegacyS3.ValueErrorAnsweredDifferently | s3_service.py:21-70 | where the two services differ: when the client raised a `ValueError`, this service answers 500 and the routes' service (services/s3_service.py:58-63) answers 400 |
| LegacyS3.DeleteAnswerOf | s3_service.py:72-86 | `True` when the delete went through; a `ClientError` becomes a 500; any other error escapes unchanged |
| LegacyS3.EntryOf | s3_service.py:98-105 | each listed object keeps key, size, date and etag, with the storage class defaulting to `STANDARD` |
| LegacyS3.ListFiles | s3_service.py:88-114 | no `Contents` gives an empty list, otherwise one entry per object in order; a failure is raised as 500 exactly when it is a client error, and any other error propagates unchanged |
| Auth.SplitCountsSeparators | app/services/auth_service.py:93 | splitting on `.` gives one piece more than the text has dots |
| Auth.ThreePartsIffTwoDots | app/services/auth_service.py:93 | a token has three parts exactly when it holds two dots |
| Auth.VerifyToken | app/services/auth_service.py:85-110 | an empty token or one without three parts is 401 without decoding; a decode error is 401; any other exception 500; otherwise the claims with 200 |
| Auth.MalformedTokenNeverDecoded | app/services/auth_service.py:89-94 | a token without exactly two dots is 401 whatever the decoder would do |
| Auth.GetCurrentUser | app/services/auth_service.py:112-149 | a cached user is answered without verification; an unverified token or claims without a truthy id or e-mail is 401; the role defaults to `user`; a fresh user is cached |
| Auth.CurrentUserFromClaims | app/services/auth_service.py:128-145 | the user built from verified claims carries exactly those claims, role `user` when none is given |
| Auth.MalformedTokenRefusedAtGate | app/services/auth_service.py:112-125 | behind a role requirement an uncached token without two dots is refused with 401 |
| Auth.VerifyPassword | app/services/auth_service.py:26-33 | the verifier's verdict, or `(False, error)` when it raised |
| Auth.LoginOutcome | app/services/auth_service.py:196-246 | no login record for an unknown e-mail; otherwise a record that is a success exactly when the password verified and the account is active |
| Auth.AuthenticateUser | app/services/auth_service.py:187-252 | unknown e-mail is 401 with no record; a wrong password, or one whose check raised, writes a failed "Invalid password" record and is 401; an account whose `is_active` is false or NULL writes "Account deactivated" and is 401; otherwise a success record and 200 |
| Auth.VerificationErrorNeverReported | app/services/auth_service.py:205-221 | a verification error always comes with a false verdict, so the 500 branch after the invalid-password branch is never taken |
| Books.UpdateData | routes/books.py:176-182 | the fields given in the request, in the order name, genre, price; empty exactly when none is given |
| Books.AssignAllConcat | routes/books.py:192-196 | setting two lists of fields one after the other is setting their concatenation |
| Books.AssignUpdateData | routes/books.py:176-196 | setting the fields of `update_data` changes exactly the given fields |
| Books.ApplyBookUpdate | routes/books.py:190-200 | after an update the given fields have the new values, everything else but the update time is unchanged |
| Books.BookTable.constructor | routes/books.py:17 | the book table starts empty, with distinct ids |
| Books.BookTable.CreateBook | routes/books.py:19-62 | the book is stored under a fresh id and returned with 201; a failed commit, including an id already in use, leaves the table unchanged and is 500 |
| Books.BookTable.ListBooks | routes/books.py:64-105 | the books of the genre (all when none), newest first, the window `offset`/`limit`; a negative bound or a database error is 500 |
| Books.BookTable.GetBookById | routes/books.py:107-147 | the book with 200, 404 when absent, 500 on a database error |
| Books.BookTable.UpdateBook | routes/books.py:149-219 | an unknown id is 404 and an empty update 400, both changing nothing; a failed commit is 500 with nothing changed; otherwise the row gets exactly the given fields and is returned with 200 |
| Books.BookTable.DeleteBook | routes/books.py:221-262 | an unknown id is 404 and a failure 500, both changing nothing; otherwise exactly that row is removed |
| Books.Numbered | Backup-main.py:557-573 | each set field gets the next placeholder number, starting at `$1` |
| Books.ValuesOf | Backup-main.py:557-573 | the parameters are the field values in the order of the SET clause |
| Books.BuildUpdate | Backup-main.py:555-586 | no statement (the 400) exactly when no field is given |
| Books.RenderAssignments | Backup-main.py:561-583 | one `column = $n` piece per set field |
| Books.BuildUpdatePlaceholders | Backup-main.py:555-589 | the k set fields use `$1..$k` in order, the WHERE clause uses `$(k+1)`, and the parameters are the k values then the id |
| Books.BuiltStatementMatchesRoute | Backup-main.py:555-589 | running the built statement changes a row exactly as the ORM route's update does |
| Books.ExecuteNumbered | Backup-main.py:561-589 | executing the numbered assignments from position j sets the fields from position j on |
| Books.DeleteStatus | Backup-main.py:623-640 | the tag `DELETE 0` is 404, any other tag 200 |
| Books.DeleteStatusByRows | Backup-main.py:626-631 | with the id as primary key the delete is 404 exactly when no row had the id |
| ConfigService.GetConfigType | services/config_service.py:53-62 | the inferred type is boolean exactly for `true`/`false` in any case, number exactly for other all-digit text, json exactly for other text in braces, string otherwise |
| ConfigService.ConvertConfigValue | services/config_service.py:150-169 | a boolean is true exactly for `true` in any case; a number is the integer `int()` reads when it reads one, else the decimal `float()` reads, else the text; json parses or falls back to the text; anything else is the text |
| ConfigService.NumberTypedTextIsInt | services/config_service.py:53-157 | a value whose inferred type is number reads back as the integer its digits spell |
| ConfigService.ConvertSignedNumber | services/config_service.py:155-157 | a number written with a leading `-` or `+` reads back as that signed integer |
| ConfigService.ConvertPaddedNumber | services/config_service.py:155-157 | a number surrounded by whitespace reads back as the integer, as `int()` strips it |
| ConfigService.ConvertDecimalNumber | services/config_service.py:158-161 | `digits.digits` is refused by `int()` and read by `float()` as its decimal value |
| ConfigService.NotBooleanText | services/config_service.py:53-57 | a text starting with a digit or `-` is never inferred as a boolean |
| ConfigService.UpdateReadBackRoundTrip | services/config_service.py:132-156 | storing a boolean or non-negative integer and reading it back gives the same value; a negative integer, whose text is not inferred as a number, reads back as its text |
| ConfigService.DictReadBack | services/config_service.py:53-168 | a dictionary's `str()` text is typed json; it reads back as the parsed JSON when the parser accepts the text and as the text itself when it refuses it, as it refuses `{'a': 1}` |
| ConfigService.ListReadBack | services/config_service.py:53-168 | a list's `str()` text is typed string, since only braces mark JSON, and reads back as that text |
| ConfigService.FloatReadBack | services/config_service.py:53-168 | a float's `str()` text such as `1.5` is not all digits, so it is typed string and reads back as text, not as a number |
| ConfigService.SeedKeepsExisting | services/config_service.py:28-43 | seeding the defaults never overwrites an existing row |
| ConfigService.SeedCovers | services/config_service.py:28-43 | after seeding every default key is present and no key outside the table and the defaults appears |
| ConfigService.SeedNoop | services/config_service.py:28-43 | seeding a table that holds every default key changes nothing |
| ConfigService.SeedIdempotent | services/config_service.py:25-51 | seeding twice is seeding once |
| ConfigService.SeedStep | services/config_service.py:28-43 | seeding one more default adds it exactly when its key is not yet present |
| ConfigService.ConfigTable.GetConfig | services/config_service.py:78-95 | 500 on a database error, 404 for a missing key, otherwise the converted stored value with 200 |
| ConfigService.ConfigTable.GetAllConfig | services/config_service.py:97-116 | 500 on a database error, otherwise every key with its converted value, type, description and editable flag |
| ConfigService.ConfigTable.UpdateConfig | services/config_service.py:118-148 | 404 for a missing key and 403 for a read-only one with nothing changed; otherwise the key stores the `str()` text of the value, whatever its type, with its re-inferred type and no other key changes; a database error rolls back with 500 |
| ConfigService.ConfigTable.InitializeDefaultConfig | services/config_service.py:25-51 | success exactly without a database error; then the table is the seeding of the old one, else unchanged |
| ConfigService.ConfigTable.EnsureConfigInitialized | services/config_service.py:172-186 | only an empty table is seeded; a non-empty one or a database error leaves it unchanged |
| ConfigInitializer.RowsOf | services/config_initializer.py:117-121 | the table built from the seed rows has exactly their keys |
| ConfigInitializer.RowsOfLookup | services/config_initializer.py:117-121 | with distinct keys, each key maps to its own seed row |
| ConfigInitializer.DeclaredTypesAreInferred | services/config_initializer.py:28-115 | every declared `config_type` is the type the service infers from its value |
| ConfigInitializer.DefaultKeysDistinct | services/config_initializer.py:28-115 | the twelve default rows have pairwise distinct keys |
| ConfigInitializer.DefaultsAgreeWithService | services/config_initializer.py:28-115 | every key of the service's `DEFAULT_CONFIG` is among the initializer's rows with the same value, type and description |
| ConfigInitializer.InitializeSystemConfig | services/config_initializer.py:15-129 | a table with rows is left alone; an empty one receives exactly the default rows; a database error rolls back and reports failure |
| ConfigInitializer.ResetToDefaults | services/config_initializer.py:131-152 | when the raw `DELETE` runs and the initialisation succeeds, the table ends up holding exactly the default rows whatever it held before; when the `DELETE` raises or the initialisation fails, the rollback leaves the table unchanged and the answer is `False` |
| ConfigInitializer.ResetCoversServiceDefaults | services/config_initializer.py:131-152 | after a reset every service default key holds its default value |
| DatabaseUrl.Insert | app/config.py:34-37 | assigning a key in a dictionary keeps keys distinct, gives the key the new value and leaves every other key's value alone |
| DatabaseUrl.InsertNew | app/config.py:34-37 | a key not yet present goes to the end |
| DatabaseUrl.ParseQuery | app/config.py:32-37 | the parsed query parameters have distinct keys |
| DatabaseUrl.Pieces | app/config.py:45 | each rebuilt piece is `key=value` of the parameter at that position |
| DatabaseUrl.Pop | app/config.py:40 | `pop` gives the value or the default, removes the key and leaves every other parameter alone |
| DatabaseUrl.EnsureAsyncDriver | app/config.py:49-54 | the result starts with the asyncpg prefix; a URL that has it is kept; `postgres://` and `postgresql://` are replaced by it; a URL without `://` raises |
| DatabaseUrl.SchemeSeparator | app/config.py:54 | the index of a `://` in the URL, or its length when it has none |
| DatabaseUrl.EnsureAsyncDriverIdempotent | app/config.py:49-54 | rewriting the driver twice is rewriting it once |
| DatabaseUrl.LoadDatabaseSettings | app/config.py:26-57 | a missing or empty `DATABASE_URL` fails; otherwise the URL is the parsed URL rebuilt with the query without `sslmode`, its driver rewritten to asyncpg, and loading fails exactly when that rewrite raises; `sslmode` is the query's value or `prefer`, and is `prefer` for a local host |
| DatabaseUrl.LoadedPostgresUrl | app/config.py:26-57 | a `postgres` or `postgresql` URL with a host always loads, as the asyncpg prefix followed by the URL after its scheme with `sslmode` removed from the query |
| DatabaseUrl.SchemeRewrite | app/config.py:49-54 | a `postgres://` or `postgresql://` URL keeps everything after the scheme behind the asyncpg prefix |
| DatabaseUrl.GetUrlWithHost | app/config.py:46 | `urlunparse` of a URL with a scheme and a host is the scheme, `://` and the rest |
| DatabaseUrl.RebuiltQueryDropsOnlySslMode | app/config.py:40-46 | parsing the rebuilt query gives every parameter but `sslmode`, with its value |
| DatabaseUrl.ParseJoinRoundTrip | app/config.py:34-37 | parsing a joined query gives the parameters back |
| DatabaseUrl.SplitJoin | app/config.py:45 | splitting a joined query on `&` gives its pieces |
| DatabaseUrl.InsertPiecesAppend | app/config.py:34-37 | building a dictionary from the pieces of distinct parameters appends them in order |
| DatabaseUrl.LoadLegacyUrl | config.py:21-25 | a missing or empty URL raises; a URL without `postgresql://` is kept; the loaded URL contains no `postgresql://`, as `str.replace` rewrites every occurrence |
| DatabaseUrl.LegacyRewriteOfPostgresqlUrl | config.py:25 | a `postgresql://` URL becomes `postgres://` with the same rest; Backup-main.py:35-41 rewrites its URL the same way |
| DbConstraints.UserRoleCheckIsEnum | models/database_models.py:28 | the role CHECK admits exactly the values of the role enumeration, each the text of its role |
| DbConstraints.UserRowsKeepRoleCheck | models/database_models.py:28 | a user row created by the service, and any update of it that succeeds, satisfies the role CHECK |
| DbConstraints.ValidatedBookMeetsCheck | models/database_models.py:47-48 | the `Book` validator accepts exactly the requests with a valid name whose genre and price satisfy the CHECKs |
| DbConstraints.BookRowsKeepCheck | models/database_models.py:47-48 | a validated update keeps a book row within the CHECKs |
| DbConstraints.NewRowCheck | models/database_models.py:75-80 | a row with only its required columns passes exactly when its size, filename and key do; the column defaults always pass |
| DbConstraints.KeyCharsOfJoin | models/database_models.py:80 | a key joined by `/` is made of key characters exactly when both parts are |
| DbConstraints.ObjectKeyCheck | models/database_models.py:80 | the upload service's object key passes the key CHECK exactly when the stripped name is non-empty and name and folder parts are key characters |
| DbConstraints.ObjectKeyOfKeyChars | models/database_models.py:80 | a non-empty name and folder of key characters give a key that passes the CHECK |
| DbConstraints.SpacedNameFailsKeyCheck | models/database_models.py:80 | a stripped name holding a space gives a key the CHECK rejects |
| DbConstraints.ValidatedFilenameMeetsChecks | models/database_models.py:78-79 | `validate_filename` keeps a clean name that is not blank within its first 255 characters within the filename CHECKs |
| DbConstraints.ValidatorAdmitsWhatChecksReject | models/database_models.py:78-79 | `validate_filename` lets through a name of spaces and a name with a control character, both of which the CHECKs reject |
| DbHealth.BackoffMonotone | database.py:84-88 | with a multiplier of at least 1 and a cap of at least the interval, the backoff interval stays between the check interval and the cap and never shrinks as failures accumulate |
| DbHealth.BackoffPositive | database.py:84-88 | a positive interval and cap give a positive backoff interval |
| DbHealth.SslConnectArg | database.py:161-169 | `disable` exactly gives `False`; `verify-ca` and `verify-full` exactly give `verify-full`; `require` exactly gives `require`; every other mode gives `True` |
| DbHealth.SslMappingsAgree | database/database.py:72-83 | the if-chain of `init_db` hands the driver the same SSL argument as the manager's table for every mode |
| DbHealth.DatabaseHealthChecker.constructor | database.py:61-76 | the given interval, failure limit, multiplier and cap; healthy with no failures, no error and no check yet |
| DbHealth.DatabaseHealthChecker.Probe | database.py:97-134 | success resets the failures and error and stamps both check times; failure counts one more failure, stamps the check time and records the error |
| DbHealth.DatabaseHealthChecker.CheckHealth | database.py:90-109 | before the backoff interval has passed the last result is returned with nothing changed; otherwise the probe decides and the failure tracking follows it |
| DbHealth.DatabaseHealthChecker.GetMetrics | database.py:136-147 | `next_check_in` is never negative, is 0 exactly when a check now would probe, and otherwise is the number of seconds until one would |
| DbHealth.DatabaseManager.constructor | database.py:153-159 | no engine, and a fresh checker with the default interval 30, limit 3, multiplier 2 and cap 300 |
| DbHealth.DatabaseManager.CloseConnection | database.py:230-236 | the engine is gone |
| DbHealth.DatabaseManager.Initialize | database.py:186-202 | an existing engine is kept; otherwise the engine is kept exactly when building, creating the tables and the checker's verification succeed, and is closed on any failure |
| DbHealth.DatabaseManager.InitializeProbing | database.py:186-222 | as `Initialize`, with the verification probing the new engine, so it succeeds exactly when the probe does |
| DbHealth.DatabaseManager.EnsureInitialized | database.py:238-248 | without an engine the database is initialised; a healthy answer keeps the engine; after a failed answer the re-initialisation is verified by the same throttled checker, which answers from the failure it just recorded |
| DbHealth.DatabaseManager.EnsureInitializedRecovering | database.py:238-248 | after a failed health check the engine is rebuilt and the call succeeds exactly when building, creating the tables and the new probe do |
| DbHealth.DatabaseManager.VerifyHealth | database.py:270-271 | false without an engine, with the checker untouched; otherwise the checker's answer |
| DbHealth.DatabaseManager.SessionDisconnected | database.py:257-261 | a disconnection marks the checker unhealthy without counting a failure, so a checker with no failures becomes inconsistent |
| DbHealth.DatabaseManager.StatsStatus | database.py:273-282 | `not_initialized` exactly without an engine; otherwise `healthy` exactly when the checker is healthy |
| DbHealth.FixedIntervalChecker.constructor | database/database.py:29-32 | healthy, no failures, no check yet |
| DbHealth.FixedIntervalChecker.CheckHealth | database/database.py:34-60 | within 30 s of the last successful check the last result is returned; otherwise the probe decides; a failure does not move the check time, so every later call probes again; the checker of models/database_sqlalchemy.py:21-55 has the same logic |
| DbHealth.GlobalDatabase.constructor | database/database.py:21-24 | no engine and a fresh checker |
| DbHealth.GlobalDatabase.InitDb | database/database.py:65-124 | the engine is rebuilt with the SSL argument of the mode and kept even when creating the tables fails, which raises 503; the final health check's answer is not used, and before the interval has passed it leaves the health flag as it was |
| DbHealth.GlobalDatabase.EnsureDbInitialized | database/database.py:212-222 | without an engine `init_db`; with a healthy answer the engine is kept; after a failed one the engine is rebuilt and probed again at once; a stored failure answered before the interval has passed also rebuilds, and the checker stays unhealthy |
| FileHistory.DefaultsLogEverything | services/file_history_service.py:29-37 | the download and view switches are default settings whose text `true` reads back as truthy, so with the defaults every action is recorded |
| FileHistory.OwnerFilter | services/file_history_service.py:83-86 | a reader is restricted to their own actions exactly when they are not an admin, have a truthy user id and `admin_history_access` is off; the restriction is their id |
| FileHistory.FileEntries | services/file_history_service.py:97-106 | one entry per row, in order |
| FileHistory.UserEntries | services/file_history_service.py:134-142 | one entry per row, in order |
| FileHistory.FileHistoryPage | services/file_history_service.py:80-92 | a restricted reader gets only their own actions on the file, at most `limit`, newest first; an unrestricted reader's filter selects exactly the file's actions |
| FileHistory.UserHistoryPage | services/file_history_service.py:122-130 | only that user's actions, at most `limit`, newest first |
| FileHistory.RetentionDays | services/file_history_service.py:153-161 | 365 when the setting cannot be read; the number when it is an integer; nothing when the value is missing or text, where the date arithmetic raises |
| FileHistory.CleanupSplitsTable | services/file_history_service.py:161-170 | the records older than the cutoff and the others partition the table |
| FileHistory.Actions | services/file_history_service.py:189-195 | the action column, row by row |
| FileHistory.ActionCountIsRows | services/file_history_service.py:189-195 | the count of an action is the number of rows a `WHERE action = a` selects |
| FileHistory.HistoryLog.constructor | services/file_history_service.py:39-52 | an empty log whose ids start at 1 |
| FileHistory.HistoryLog.LogFileAction | services/file_history_service.py:15-60 | a download or view whose switch reads as off gives `(True, 200)` and writes nothing; otherwise the action is appended with a fresh id and 201; a failed commit rolls back with 500 |
| FileHistory.HistoryLog.GetFileHistory | services/file_history_service.py:63-112 | a non-admin is refused with 403 unless `user_history_access` is on; otherwise the file's actions under the owner filter, newest first, paged; a database error or a negative bound gives 500 |
| FileHistory.HistoryLog.GetUserFileHistory | services/file_history_service.py:114-148 | the user's actions, newest first, paged; 500 exactly on a database error or a negative bound |
| FileHistory.HistoryLog.CleanupOldHistory | services/file_history_service.py:150-177 | cleanup off deletes nothing with 200; a non-numeric retention or failed commit gives `(0, 500)` unchanged; otherwise exactly the records older than the cutoff are deleted and counted |
| FileHistory.HistoryLog.GetHistoryStats | services/file_history_service.py:179-226 | the total, a per-action count that adds up to it and counts each action's rows, and the number of actions in the last `days` days; 500 on a database error |
| FileListing.ToInt | services/file_service.py:329-330 | an absent argument gives the default, an integer itself, a text its parsed value when it parses; anything else makes `int()` raise |
| FileListing.PageParams | services/file_service.py:328-333 | both bounds converted, or both reset to 100 and 0 when either conversion raises |
| FileListing.BadLimitResetsOffset | services/file_service.py:331-333 | a well-formed offset is dropped together with a malformed limit |
| FileListing.SortOrder | services/file_service.py:337-339 | `asc` exactly when asked for in any case, otherwise `desc` |
| FileListing.UserSortKeysAreUserColumns | services/file_service.py:384-416 | a sort key joins the users table exactly when it sorts on a user column |
| FileListing.SortSpec | services/file_service.py:379-436 | a known key, compared lower-cased, sorts on its column in the normalised direction and joins users exactly for user columns; no key or an unknown one sorts newest first |
| FileListing.SortSpecIgnoresCase | services/file_service.py:380 | keys that agree lower-cased give the same ordering |
| FileListing.FilterOf | services/file_service.py:350-373 | the filters built from the arguments, none when the owner id does not convert; a search filter is present only for a non-empty search |
| FileListing.DistinctCard | services/file_service.py:451-458 | distinct user ids have as many elements as the list |
| FileListing.RecordsOf | services/file_service.py:486-530 | one record per selected row, in order, each with its owner's details |
| FileListing.Page | services/file_service.py:446 | `OFFSET o LIMIT l` keeps `min(l, max(0, n - o))` rows starting at `o`, in order |
| FileListing.ListCurrentVersions | services/file_service.py:310-548 | 500 exactly for an owner id that does not convert or a negative bound; otherwise the page of the ordered answer with its owners' details and the count of all selected rows |
| FileRecords.NewRow | models/files.py:11-38 | a row given only its required columns is version 1, current, status `success`, score 0, with no parent or comment, both times stamped |
| FileRecords.Timestamp | models/files.py:86-87 | a timestamp is null exactly when absent |
| FileRecords.ToDict | models/files.py:65-89 | `has_content` exactly for non-empty content; metadata or `{}`; null times exactly when absent |
| FileRecords.ToDictHidesContent | models/files.py:65-89 | rows differing only in their content serialise identically, apart from `has_content` |
| FileRecords.DefaultVersionIsValid | schemas.py:97 | the column default version 1 satisfies the response schema's `ge=1` and the row starts current |
| FileValidation.PathName | app/utils/file_validator.py:23 | the last component of a path holds no slash |
| FileValidation.LastComponent | app/utils/file_validator.py:23 | the last path component that is neither empty nor `.`, which holds no slash |
| FileValidation.Suffix | app/utils/file_validator.py:23 | the suffix is empty or a dot followed by a non-empty dot-free, slash-free name |
| FileValidation.LStripChar | app/utils/file_validator.py:23 | `lstrip` leaves a suffix of the text that does not start with the stripped character |
| FileValidation.Extension | app/utils/file_validator.py:23 | the compared extension is empty or a plain extension |
| FileValidation.PathNameOfPlainName | app/utils/file_validator.py:23 | a name without a slash is its own last component |
| FileValidation.SuffixOfDottedName | app/utils/file_validator.py:23 | the suffix of `base.e` is `.e` for a non-empty base |
| FileValidation.ExtensionOfDottedName | app/utils/file_validator.py:23 | the extension of `base.e` is `e` for a non-empty base |
| FileValidation.BasicVerdictRules | app/utils/file_validator.py:13-34 | a missing name gives 400, a size above the limit 413, no extension 400, an unlisted extension 415, checked in that order; a file is accepted exactly when it has a name, fits and carries a configured extension |
| FileValidation.ValidateFileBasic | app/utils/file_validator.py:13-34 | the loop-built verdict is the rule-by-rule verdict |
| FileValidation.CollectExtensions | app/utils/file_validator.py:26-28 | the allowed list is the concatenation of the category lists in order |
| FileValidation.SafeChar | app/utils/file_validator.py:43-44 | an invalid character becomes one that is not invalid; any other stays |
| FileValidation.Sanitize | app/utils/file_validator.py:44 | same length, each character mapped in place |
| FileValidation.ValidateFilename | app/utils/file_validator.py:37-50 | only empty input is an error; the output has length `min(n, 255)` and keeps every valid character in place, with the nine invalid characters replaced by `_` |
| FileValidation.ValidateFilenameIdempotent | app/utils/file_validator.py:37-50 | a sanitised name is accepted again unchanged |
| FileVersions.ParseUserId | services/file_version_service.py:122 | the user id converts exactly when it is all digits, to a non-negative number |
| FileVersions.MaxVersions | services/file_version_service.py:147-148 | a missing or falsy setting means 10; a non-zero number is used as it is; a text makes the comparison raise, so nothing is pruned |
| FileVersions.SliceStart | services/file_version_service.py:200 | Python's `s[m:]` starts at `m` when `0 <= m <= n` and never past the end |
| FileVersions.OrderedCoversNamed | services/file_version_service.py:191-196 | the pruning query lists exactly the filename's rows, once each |
| FileVersions.DeleteIdsEffect | models/files.py:28-29 | deleting rows keeps every other row except that a parent among the deleted rows becomes NULL; a parent that was present and not deleted stays, and no parent id is left naming a missing row |
| FileVersions.PrunedCount | services/file_version_service.py:198-207 | deleting the rows after position `s` leaves exactly the first `s` rows of the filename |
| FileVersions.PrunedKeepsNewest | services/file_version_service.py:191-207 | every kept row of the filename has a version at least that of every deleted one |
| FileVersions.CleanupKeepsNewest | services/file_version_service.py:182-215 | with a limit of at least 1, pruning leaves `min(count, limit)` rows of the filename, the newest ones, and counts those it deletes; rows of other filenames stay, and each surviving row loses a parent that was deleted (ON DELETE SET NULL, models/files.py:28-29) |
| FileVersions.Demote | services/file_version_service.py:112-115 | demoting a row keeps the table's ids |
| FileVersions.NewVersionFailureUnchanged | services/file_version_service.py:104-108 | a failed creation answers 404 or 500 and leaves the table and id sequence unchanged |
| FileVersions.NewVersionShape | services/file_version_service.py:112-145 | a new version is numbered one above the previous current row, points back to it, is current and keeps the creation time; the previous row is no longer current |
| FileVersions.CleanupSubset | services/file_version_service.py:198-207 | pruning only removes rows, keeps every survivor's content, version and current flag, and leaves no parent id naming a missing row |
| FileVersions.NewVersionKeepsOneCurrent | services/file_version_service.py:97-155 | creating a version keeps at most one current row per filename |
| FileVersions.NewVersionKeepsLatest | services/file_version_service.py:97-155 | creating a version keeps the current row the highest version of its filename |
| FileVersions.NewVersionKeepsParentsPresent | services/file_version_service.py:97-155 | creating a version leaves no parent id naming a missing row: pruning clears deleted parents, and the new row's parent is the demoted row, which pruning must have kept for the insert to succeed |
| FileVersions.LimitDeletingCurrentFails | services/file_version_service.py:146-153 | a limit of minus the filename's row count or below makes `versions[max_versions:]` include the demoted current row, so the new row's parent is gone and the creation fails with 500, changing nothing |
| FileVersions.NewVersionRowBound | services/file_version_service.py:146-153 | with a positive limit a filename has at most `limit + 1` rows after a created version, because pruning runs before the insert |
| FileVersions.CleanupAtMost | services/file_version_service.py:198-207 | pruning with a positive limit leaves at most that many rows of the filename |
| FileVersions.FirstVersionKeepsOneCurrent | services/file_service.py:90-110 | a first version keeps one current row per filename when its filename has none |
| FileVersions.CreateRecordKeepsOneCurrent | services/file_service.py:36-110 | `create_upload_record` keeps one current row per filename while no other user holds the current row of that filename |
| FileVersions.SecondUploaderBreaksOneCurrent | services/file_service.py:42-51 | a second user uploading the same filename inserts a second current row, and the first user's next upload then fails with 500 |
| FileVersions.CreateByFilenameKeepsOneCurrent | services/file_service.py:42-51 | with the existence check grouped by filename every creation keeps one current row per filename |
| FileVersions.RestoreComment | services/file_version_service.py:274 | a given comment is kept; none gives `Restored from version N` |
| FileVersions.RestoreNeverCreates | services/file_version_service.py:217-279 | the copy reuses the restored row's S3 key, which the unique column rejects: every restore answers 404 or 500 and leaves the table unchanged |
| FileVersions.RestoreByKeyVersionSucceeds | services/file_version_service.py:217-279 | against a `(s3_key, version)` index a restore with one current row succeeds; the copy carries the restored content with status `restored`, points back to it, takes a version above every row of its key and is the key's only current row |
| FileVersions.GetRecord | services/file_service.py:700-754 | 200 with the one row carrying the key; 404 exactly when no row has it; 500 otherwise |
| FileVersions.DeleteRemovesKey | services/file_service.py:756-784 | under the unique key, delete removes exactly the row with that key, or answers 404 with nothing removed; a row whose parent was removed loses that parent (models/files.py:28-29), every other row is unchanged, and no parent id is left naming a missing row |
| FileVersions.ColumnNameRoundTrip | services/file_service.py:804-806 | every column attribute of the record is found by `hasattr` under its own column name (models/files.py:11-41) |
| FileVersions.ColumnNamed | services/file_service.py:804-806 | a name `hasattr` finds is the name of the column it finds; every other name is skipped |
| FileVersions.FlushEffect | models/files.py:12-41 | the flush succeeds exactly when every assigned column takes its value (type, `String(n)` length, `integer` range, NOT NULL); then each assigned column holds its value and every other column keeps its own |
| FileVersions.SetAttributesNamed | services/file_service.py:804-806 | after the loop a column is assigned exactly when an update names it, with that update's value |
| FileVersions.SetEach | services/file_service.py:804-806 | the `setattr` loop over the updates assigns exactly the columns `SetAttributes` names, with their values |
| FileVersions.CommitRowKeepsTable | services/file_service.py:808-809 | the commit answers 200 or 500; on 500 nothing changes; on 200 only the updated row changes, the ids stay, and keys stay unique and parents present when they were |
| FileVersions.CommitRowValues | models/files.py:12-41 | after a committed update each column but `updated_at` holds its assigned value or its old one; a value its column refuses makes the commit fail with 500 |
| FileVersions.ReplaceRowKeepsKeys | services/file_service.py:804-808 | replacing a row by one whose key no other row uses keeps keys unique |
| FileVersions.UpdateTouchesOneRow | services/file_service.py:786-838 | 404 exactly for a missing key; 200 or 500 otherwise, changing nothing on 500; an update changes only the matched row and keeps keys unique and every parent present |
| FileVersions.UpdateWritesNamedColumns | services/file_service.py:786-838 | a successful update leaves each column but `updated_at` with the value the update names for it, or its old value; any value a column refuses gives 500 and changes nothing |
| FileVersions.UpdateCanBreakOneCurrent | services/file_service.py:804-806 | setting `is_current_version` on a non-current row whose filename has a current row succeeds and leaves that filename with two current rows |
| FileVersions.SetCurrentFlag | services/file_service.py:804-808 | an update setting `is_current_version` on the one row of a key succeeds, makes that row current and changes no other row |
| FileVersions.FileTable.constructor | models/files.py:11 | an empty table whose ids start at 1 |
| FileVersions.FileTable.Insert | models/files.py:13-29 | the unique `s3_key` rejects a key in use, and the `parent_version_id` foreign key a parent that is not a row, with 500 and nothing written; otherwise the row is added at the next id |
| FileVersions.FileTable.CleanupOldVersions | services/file_version_service.py:182-215 | the table after pruning and the count are those of the pruning function, which clears deleted parents; a valid table stays valid |
| FileVersions.FileTable.CreateNewVersion | services/file_version_service.py:81-180 | the new table, id sequence, row and status are those of `NewVersion`; keys stay unique and every parent id names a row |
| FileVersions.FileTable.CreateUploadRecord | services/file_service.py:16-131 | the new table and status are those of `CreateRecord`; the summary is given exactly on 201 and says whether a version was made |
| FileVersions.FileTable.RestoreVersion | services/file_version_service.py:217-304 | the new table, row and status are those of `Restore` |
| FileVersions.FileTable.UpdateUploadRecord | services/file_service.py:786-838 | the table, row and status of `UpdateRecord`, the column assignments coming from the `setattr` loop; ids stay and every parent id still names a row |
| FileVersions.FileTable.GetUploadRecord | services/file_service.py:700-754 | the answer of `GetRecord`, nothing changed |
| FileVersions.FileTable.DeleteUploadRecord | services/file_service.py:756-784 | the table and answer of `DeleteRecord`; rows that named the deleted row as parent lose it, so every parent id still names a row |
| HealthRoutes.ErrorStatus | app/api/v1/routes/health.py:57-60 | a failed check answers 503 or 500, nothing else |
| HealthRoutes.ErrorStatusIgnoresCase | app/api/v1/routes/health.py:57 | the connection/network classification is case-insensitive |
| HealthRoutes.ConnectionProblemInContext | app/api/v1/routes/health.py:143-150 | a message mentioning a connection problem is answered 503 whatever text surrounds it |
| HealthRoutes.NoKeywordLettersIsServerError | app/api/v1/routes/health.py:151-158 | a message that cannot contain `connection` or `network` is answered 500 |
| HealthRoutes.FirstWord | app/api/v1/routes/health.py:46 | the first word holds no whitespace and is non-empty when the text starts with a non-space |
| HealthRoutes.PostgresVersion | app/api/v1/routes/health.py:46 | a missing or empty banner gives `unknown`; a found version is a non-empty word without whitespace |
| HealthRoutes.SkipWord | app/api/v1/routes/health.py:46 | splitting a word followed by whitespace yields that word and leaves the rest |
| HealthRoutes.VersionIsSecondWord | app/api/v1/routes/health.py:46 | a banner `name version ...` reports exactly its second word |
| HealthRoutes.OneWordBannerFails | app/api/v1/routes/health.py:46 | a one-word banner makes `split()[1]` raise an index error |
| HealthRoutes.HealthCheck | app/api/v1/routes/health.py:27-73 | success exactly when the queries answer and the version lookup succeeds, and then status 200; on an exception `unhealthy` with the classified status and the error message |
| HealthRoutes.DatabaseHealthCheck | app/api/v1/routes/health.py:117-158 | `connected`/200 without failure; otherwise `disconnected` exactly with 503 and `error` exactly with 500, carrying the error text |
| HealthRoutes.DatabaseChecksAgree | app/api/v1/routes/health.py:57-60 | the basic and the database-specific check give the same status code for the same failure |
| HealthRoutes.DetailedHealthCheck | app/api/v1/routes/health.py:171-217 | success exactly without a database failure; the report is `healthy`/200 or `degraded`/503, never 207, with the database and API components recorded |
| HealthRoutes.RedisHealth | app/api/v1/routes/health.py:221-246 | unconfigured Redis is unhealthy without a ping; a ping that raises gives 503; otherwise the ping result decides health |
| LoginHistory.LastLoginIsLatest | services/login_history_service.py:44-55 | the last login time is absent exactly when the user has no successful login, and otherwise is one of their successful login times and no earlier than any |
| LoginHistory.LoginEntries | services/login_history_service.py:92-103 | one history entry per row, in order, carrying that row's time, addresses, status and reason |
| LoginHistory.FailedEntries | services/login_history_service.py:150-160 | one failure entry per row, in order, carrying that row's time, addresses and reason |
| LoginHistory.RecentFailuresExact | services/login_history_service.py:138-146 | the recent failures are exactly the user's failed attempts at or after the threshold, newest first |
| LoginHistory.CountsAfterAppend | services/login_history_service.py:61-73 | recording an attempt adds one to the count of its own user and status and to no other count |
| LoginHistory.LastLoginAfterAppend | services/login_history_service.py:40-55 | a successful login no earlier than every recorded one becomes the user's last login time |
| LoginHistory.LoginLog.CreateLoginRecord | services/login_history_service.py:13-37 | a commit appends exactly one row with the given fields and returns it with 200; a failed commit rolls back, leaves the table unchanged and gives 500 |
| LoginHistory.LoginLog.GetLastLoginTime | services/login_history_service.py:40-58 | 200 with the latest successful login time, or none when there is none; 500 on a database error |
| LoginHistory.LoginLog.GetLoginCount | services/login_history_service.py:61-76 | 200 with the number of the user's successful logins; 500 on a database error |
| LoginHistory.LoginLog.GetFailedLoginCount | services/login_history_service.py:111-126 | 200 with the number of the user's failed attempts; 500 on a database error |
| LoginHistory.LoginLog.GetUserLoginHistory | services/login_history_service.py:79-108 | at most `limit` of the user's attempts, newest first, with 200; a negative limit or a database error gives 500 |
| LoginHistory.LoginLog.GetRecentFailedLogins | services/login_history_service.py:129-165 | the user's failed attempts in the last `hours` hours, newest first, with 200; 500 on a database error or when `hours` puts the threshold outside the `timedelta` or `datetime` range |
| Metadata.ParseMetadata | app/utils/metadata_handler.py:11-24 | empty or absent text gives no metadata and no error; metadata is returned exactly when the text parses to a JSON object; another JSON value or a decode error gives 400, any other exception 500, and an error always comes with a status; utils/metadata_handler.py is an identical copy |
| Queries.FindFirst | services/user_service.py:20-26 | the first position whose key column holds the value, or none exactly when no row holds it; the lookups by book id, user id, e-mail and object key use it |
| Queries.Where | services/file_history_service.py:80-86 | the filter keeps exactly the rows satisfying the condition, and no more rows than the table has |
| Queries.WherePartition | services/file_history_service.py:164-165 | the rows a condition deletes and the rows it keeps add up to the table |
| Queries.WhereAppend | services/file_history_service.py:80-86 | a row added at the end of the table is selected last, when it satisfies the condition |
| Queries.InsertByTime | services/file_history_service.py:89 | placing a row keeps every other row and adds that one |
| Queries.InsertKeepsOrder | services/file_history_service.py:89 | placing a row by its time keeps a newest-first list newest first |
| Queries.OrderByTimeDesc | services/file_history_service.py:89 | `ORDER BY created_at DESC` returns a permutation of the rows, newest first |
| Queries.Window | services/file_history_service.py:90-91 | `OFFSET`/`LIMIT` returns the rows from the offset on, at most `limit` of them, and exactly as many as remain when fewer |
| Queries.WindowKeepsOrder | services/file_history_service.py:89-91 | a window of a newest-first answer is newest first |
| Queries.WindowWithin | services/file_history_service.py:90-91 | every row of a window comes from the answer |
| Queries.WhereKeepsAscending | services/file_history_service.py:164-165 | filtering rows keeps ascending ids ascending |
| Queries.PageSound | services/file_history_service.py:88-91 | a page holds at most `limit` rows of the table, each satisfying the condition, newest first |
| Queries.PageComplete | services/file_history_service.py:88-91 | a first page large enough for every matching row holds each of them exactly once |
| Queries.GroupCountIsExact | services/file_history_service.py:192-195 | `GROUP BY` with `count` lists each key once, with the number of rows holding it, and the counts add up to the number of rows |
| RateLimiter.RateKeyInjective | app/middleware/rate_limiter.py:14-18 | two clients without `/` in their address, or two paths (which start with `/`), never share a counter key |
| RateLimiter.FirstSlash | app/middleware/rate_limiter.py:18 | in a key, the first `/` is where the path starts |
| RateLimiter.RateLimiterMiddleware.constructor | app/middleware/rate_limiter.py:7-10 | the middleware keeps the given maximum and window and starts with no counters |
| RateLimiter.RateLimiterMiddleware.Dispatch | app/middleware/rate_limiter.py:12-37 | a key whose count has reached `max_requests` is refused with 429, uncounted and not forwarded; otherwise its count goes up by one, the first request of a window sets the expiry to `time_window`, and the handler's answer is returned; counts never pass the maximum |
| RateLimiter.RateLimiterMiddleware.WindowEnds | app/middleware/rate_limiter.py:33-34 | when a window expires Redis drops the counter and its expiry, and the next request counts from 0 |
| RateLimiter.WindowForwardsAtMostMax | app/middleware/rate_limiter.py:23-30 | within one window a key is forwarded at most `max_requests` times (none for a negative maximum) |
| Redis.Lookup | app/services/redis_service.py:75-88 | a missing key reads as nothing; a raw answer is the stored text that does not decode; a decoded answer is the stored text's non-null JSON value |
| Redis.SetThenGet | app/services/redis_service.py:50-88 | a value written with `set` reads back unchanged with `get` when its JSON text decodes to it |
| Redis.CacheKeysDistinct | app/services/redis_service.py:157-197 | the `user:`, `user_email:` and `token:` keys of two entries coincide exactly when the entries do |
| Redis.KeyHeads | app/services/redis_service.py:157-197 | the first and fifth characters of a cache key tell its namespace |
| Redis.AllUsersPatternCoversIdEntries | app/services/redis_service.py:169-171 | the `user:*` pattern covers every id-keyed user entry and no e-mail or token entry |
| Redis.FileLookup | app/services/redis_service.py:217-230 | a cached file is found only as a non-empty text that decodes to a non-null value, and always when there is one |
| Redis.RedisService.constructor | app/services/redis_service.py:11-26 | a configured service starts marked healthy, an unconfigured one unhealthy, over an empty server |
| Redis.RedisService.EnsureConnection | app/services/redis_service.py:28-44 | an unconfigured service is down; a healthy one is up without a ping; otherwise the ping decides, and the health flag records the answer |
| Redis.RedisService.Set | app/services/redis_service.py:50-67 | true exactly when the server is reachable and the command succeeds; `setex` stores the text with the ttl, a plain `set` stores it and clears any expiry; a failure writes nothing |
| Redis.RedisService.Get | app/services/redis_service.py:69-92 | nothing when unreachable or on a raising command, which clears the health flag; otherwise what the lookup reads, with the store unchanged |
| Redis.RedisService.Delete | app/services/redis_service.py:94-106 | true exactly when the key existed and was removed; an unreachable server or a raising command removes nothing |
| Redis.RedisService.Exists | app/services/redis_service.py:108-119 | true exactly when the server is reachable, answers and holds the key; nothing changes |
| Redis.RedisService.DeletePattern | app/services/redis_service.py:121-141 | the total is the number of distinct stored keys the scan named, and exactly those keys are gone; an unreachable server deletes nothing; a command that raises at a batch keeps the earlier batches' deletions, answers 0 and clears the health flag |
| Redis.RedisService.DeleteBatches | app/services/redis_service.py:130-136 | the scan loop removes exactly the keys of the batches it walked and counts the stored ones among them |
| Redis.RedisService.CheckHealth | app/services/redis_service.py:144-153 | healthy exactly when configured and the ping answers, and the health flag records it |
| Redis.RedisService.CacheEntryValue | app/services/redis_service.py:157-189 | the entry is stored under its own key when the write succeeds, and every other entry's cached value is untouched |
| Redis.RedisService.GetCachedEntry | app/services/redis_service.py:161-193 | reads the entry's own key with `get` |
| Redis.RedisService.InvalidateEntry | app/services/redis_service.py:165-197 | deletes the entry's own key with `delete`: true exactly when it was cached |
| Redis.RedisService.CacheFileAsWritten | app/services/redis_service.py:200-215 | the missing `redis_client` attribute makes `cache_file` answer false and store nothing, always |
| Redis.RedisService.GetCachedFileAsWritten | app/services/redis_service.py:217-230 | the same attribute makes `get_cached_file` never hit |
| Redis.RedisService.CacheFile | app/services/redis_service.py:200-215 | on the service's own connection the file text is stored under `file:{s3_key}` with its expiry, exactly when the service is available and the command succeeds |
| Redis.RedisService.GetCachedFile | app/services/redis_service.py:217-230 | on the service's own connection the answer is what the file lookup decodes, and nothing when unavailable |
| Redis.CachedFileReadsBack | app/services/redis_service.py:200-230 | a file cached on the service's own connection reads back unchanged |
| Schemas.ValidatePassword | models/schemas.py:120-132 | a password is accepted exactly when it is strong (length, upper case, lower case, digit, special character) and comes back unchanged |
| Schemas.FirstBroken | models/schemas.py:122-131 | no message exactly when the password keeps every rule |
| Schemas.PasswordRulesInOrder | models/schemas.py:122-132 | the validator rejects with exactly the message of the first broken rule, and accepts when none is |
| Schemas.PasswordField | models/schemas.py:118-132 | the password field accepts exactly a strong password of 8 to 100 characters, unchanged |
| Schemas.ValidatorLengthRuleNeverReported | models/schemas.py:118-123 | the declared bound shadows the validator's own length rule, so its message is never reported |
| Schemas.NameField | models/schemas.py:113-114 | a name field accepts exactly 1 to 50 characters, unchanged |
| Schemas.RoleField | models/schemas.py:7-10 | a role is accepted exactly when absent or one of the enum values, defaults to `user`, and keeps the value sent |
| Schemas.ValidateUserCreate | models/schemas.py:111-132 | a new user is accepted exactly when the `EmailStr` check, both names, the password and the role are; a refused address is reported first; the user carries the validated fields |
| Schemas.ValidateUserUpdate | models/schemas.py:134-138 | an update is accepted exactly when each name and role given as text is valid; a `null` passes, and fields not given stay unset |
| Schemas.ParseGenre | models/schemas.py:14 | a genre is recognised exactly for `fiction` and `non-fiction`, and reads back as sent |
| Schemas.BookName | models/schemas.py:13-22 | a book name is accepted exactly when 1 to 255 characters long and not blank, and is stored stripped |
| Schemas.BookNameAccepts | models/schemas.py:13-22 | a name is refused exactly when its length is out of bounds or it is only whitespace |
| Schemas.BookNameShape | models/schemas.py:13-22 | an accepted name is non-empty, no longer than sent, and has no surrounding whitespace |
| Schemas.BookUpdateName | models/schemas.py:25-34 | an absent name passes; a given one is checked and stripped as a book name is |
| Schemas.ValidateBook | models/schemas.py:12-22 | a book is accepted exactly when the name, the genre and a price above 0 are, and carries the stripped name |
| Schemas.ValidateBookUpdate | models/schemas.py:24-34 | a book update is accepted exactly when each given field is, and fields not given stay absent |
| Schemas.BookNameIdempotent | models/schemas.py:17-22 | validating an accepted book name again changes nothing |
| Security.GetClientIp | app/utils/security.py:10-20 | a non-empty `X-Forwarded-For` gives its first comma-separated entry, stripped; otherwise a non-empty `X-Real-IP`, stripped; otherwise the connection's host or `unknown` |
| Security.FirstEntryLocated | app/utils/security.py:14 | the reported address is the text before the first comma with exactly its surrounding whitespace removed |
| Security.ClientIpIsTrimmedFirstEntry | app/utils/security.py:13-14 | whatever trims the first comma-separated entry of a non-empty `X-Forwarded-For` is the address reported |
| Security.ForwardedForTakesPrecedence | app/utils/security.py:12-14 | once `X-Forwarded-For` is non-empty, the other sources do not matter |
| Security.GenerateSafeFilename | app/utils/security.py:22-37 | a filename is always produced: a non-empty custom name always passes sanitising, so the error branch is never taken |
| Security.SafeFilenameShape | app/utils/security.py:27-35 | the name has no `/` and ends with the lower-cased suffix; a custom stem is non-empty, free of invalid characters and passes the filename check unchanged; otherwise the stem is 32 hex digits |
| Settings.Flatten | app/utils/file_validator.py:27-29 | an extension is in the flattened list exactly when some category lists it |
| Settings.FlattenAllowed | app/config.py:85-90 | the allowed extensions, flattened in category order, are the eighteen listed |
| Settings.AllowedExtensionsArePlain | app/config.py:85-90 | every allowed extension is lower case with no leading dot |
| UploadRoutes.SingleFailure | routes/files.py:264-274 | a failed single upload reports no stored file and exactly one error, under the file's name and with the failing step's status |
| UploadRoutes.StageOutcomes | routes/files.py:248-375 | only a request whose every step passes ends with the stored object's key, URL, size and type; a raising S3 service is re-raised with its status; any failure after the object was signed is a refused step |
| UploadRoutes.ReplyShapes | routes/files.py:252-391 | success exactly at the last stage, with the one stored file and 201; every other answer reports exactly one failed file with the failing step's status and message |
| UploadRoutes.SendAndRecord | routes/files.py:309-375 | after a successful send, a metadata or record failure deletes the object again; the stage and the bucket are what the send, the metadata and the record status make them |
| UploadRoutes.UploadFile | routes/files.py:231-406 | the answer is the staged reply; the object is deleted again exactly when it was sent and signed and a later step failed; a request that never reaches the send leaves the bucket unchanged |
| UploadRoutes.Fates | routes/files.py:479-584 | one fate per file handled, each the fate that file's own steps give |
| UploadRoutes.TallyAddsUp | routes/files.py:479-587 | every file lands in exactly one of the stored and the failed lists |
| UploadRoutes.AllStoredMeansNoErrors | routes/files.py:479-587 | there are no errors exactly when every file was stored |
| UploadRoutes.TallyMessage | routes/files.py:588-593 | the summary says all failed, all succeeded, or gives both counts |
| UploadRoutes.CompensatedFileFails | routes/files.py:537-556 | a file whose object is deleted again is reported failed with the record's status |
| UploadRoutes.StoredFileIsInBucket | routes/files.py:520-536 | a file reported stored keeps its object in the bucket under the reported key |
| UploadRoutes.SendOne | routes/files.py:520-545 | one file's send and sign, and the delete again when its record fails |
| UploadRoutes.UploadOne | routes/files.py:480-584 | one pass of the loop: the file's fate, and the bucket changed only when the file reached the send |
| UploadRoutes.UploadEach | routes/files.py:479-584 | the loop gives the stored and failed lists, the keys deleted again and the bucket after every file in turn |
| UploadRoutes.SafePrefix | routes/files.py:469-477 | a prefix is kept exactly when given non-empty, and is then the non-empty sanitised name |
| UploadRoutes.UploadBatch | routes/files.py:479-603 | an accepted batch answers 201 with the stored and failed files in order, counts adding up to the number of files, and the summary message |
| UploadRoutes.UploadMultipleFiles | routes/files.py:420-613 | a bad caller, no files, more than 50 files or bad metadata raise before any file is touched; otherwise the batch answer |
| UploadRoutes.OwnerFilter | routes/files.py:647-649 | a non-admin always lists their own files; an admin's filter is kept |
| UploadRoutes.SearchFilter | routes/files.py:652-653 | an empty or single-blank search is no search; any other is kept |
| UploadRoutes.PageOffset | routes/files.py:655 | the offset of a page is never negative |
| UploadRoutes.TotalPages | routes/files.py:672 | at least one page; exactly enough pages of `limit` records to hold the total |
| UploadRoutes.CallAsWritten | routes/files.py:662 | the positional call puts `limit` and `offset` into the sort parameters and leaves the service's own offset and limit defaulted |
| UploadRoutes.CallByName | routes/files.py:662 | passed by name, the service pages with exactly the handler's limit and offset |
| UploadRoutes.NumeralSortsByDefault | routes/files.py:662 | a misplaced numeral never names a sort column, so it selects the default order |
| UploadRoutes.AsWrittenIgnoresPage | routes/files.py:655-662 | as written, whatever the page, the service answers the first 100 current records |
| UploadRoutes.ByNameReturnsThePage | routes/files.py:655-662 | called by name, the service answers the records from the offset on, at most `limit` of them |
| UploadRoutes.ListUploadRecords | routes/files.py:625-697 | success exactly with data and 200; bounds out of range give 422; a failed authentication its status; a success reports the page, the limit, the total pages, the owner-filtered count and the requested page of records |
| UploadRoutes.OwnersCannotDeleteAsWritten | routes/files.py:760 | as written, an owner who is not an admin is refused, while the intended test lets them delete |
| UploadRoutes.DeleteUploadRecord | routes/files.py:711-807 | nothing is deleted unless every check passes; 403 exactly when the caller may not delete an existing record; a failed S3 delete keeps the row; otherwise the object and then the row are gone, with 200 |
| UploadsService.EnsureDbConnectionAsWritten | uploads_service.py:13-18 | as written the boolean answer of `ensure_db_initialized` is handed on as the pool, which cannot be acquired from |
| UploadsService.EnsureDbConnection | uploads_service.py:13-18 | the pool exactly when initialisation succeeded, and one that can be acquired from |
| UploadsService.NewRow | uploads_service.py:41-60 | the inserted row carries the given columns, status `success`, equal creation and update times, and metadata only for a non-empty object |
| UploadsService.DecodeMetadata | uploads_service.py:96-100 | metadata is decoded exactly when the text is absent, empty or valid JSON; an empty text is kept as it is |
| UploadsService.MetadataFallbacksDiffer | uploads_service.py:96-100 | the single-record and the list reader disagree exactly on malformed JSON text, one answering `None`, the other `{}` |
| UploadsService.StoredMetadataReadsBack | uploads_service.py:39 | stored metadata reads back as the object written when `json.loads` inverts `json.dumps`; an empty object reads back as `None` |
| UploadsService.ProcessRecords | uploads_service.py:151-164 | the processing loop yields one record per row with its metadata decoded, and ends the call when a decode escapes |
| UploadsService.WhereClause | uploads_service.py:133 | `1=1` without conditions; a single condition is rendered alone |
| UploadsService.NumberedQuerySound | uploads_service.py:125-146 | conditions numbered from `$1` in the order of their arguments give well-formed statements selecting exactly the requested rows |
| UploadsService.BuildListQuery | uploads_service.py:121-146 | with each placeholder numbered after the arguments already bound, both statements are well formed and select exactly the requested rows, with LIMIT and OFFSET after the filter arguments |
| UploadsService.WhereClauseOfFilters | uploads_service.py:133 | the WHERE clause is `1=1` exactly when there is no condition |
| UploadsService.BuildListQueryAsWritten | uploads_service.py:125-146 | as written, with the folder filter alone the statements use `$2` with the wrong number of bound arguments and are malformed; otherwise they are sound |
| UploadsService.DeleteTagOne | uploads_service.py:185 | the delete reports success exactly when one row was deleted |
| UploadsService.KeyCount | uploads_service.py:181-185 | under the unique key at most one row has a given key |
| UploadsService.WhereKeepsUnique | uploads_service.py:181 | deleting rows keeps keys unique |
| UploadsService.UploadTable.constructor | uploads_service.py:11 | the table starts empty and valid |
| UploadsService.UploadTable.CreateUploadRecord | uploads_service.py:20-73 | the statement fails, changing nothing, exactly when the connection or statement fails or the key is already recorded; otherwise exactly the new row is appended and returned |
| UploadsService.UploadTable.GetUploadByS3Key | uploads_service.py:75-106 | a record exactly when reachable and the key is recorded, carrying that row and its decoded metadata (`None` for malformed text) |
| UploadsService.UploadTable.ListUploads | uploads_service.py:108-170 | with the corrected builder, the count of the requested rows and the requested page of them newest first with their metadata decoded; a negative bound or a failure raises |
| UploadsService.UploadTable.DeleteUploadRecord | uploads_service.py:172-188 | true exactly when reachable and the row existed; a success removes exactly the rows with that key; a failure deletes nothing |
| UploadsService.SameWhere | uploads_service.py:181 | two conditions that agree on every row select the same rows |
| Users.PublicDict | services/user_service.py:81-90 | the public dictionary carries the user's id, e-mail, role and status and no password hash |
| Users.PrivateDict | services/user_service.py:116-126 | the private dictionary is the public one plus the password hash |
| Users.NewUser | services/user_service.py:28-39 | a new user is active, with the role's value and the hash of the password |
| Users.ApplyUserUpdate | services/user_service.py:153-161 | a `null` for `first_name`, `last_name` or `role` breaks their NOT NULL (models/database_models.py:19-22) and the statement fails; otherwise each field the request sets takes its new value, a `null` `is_active` becomes NULL, every other column keeps its value, and the update time is stamped |
| Users.TotalPagesIsCeiling | services/user_service.py:272 | with a positive limit the page count is the ceiling of the total over the limit, and 0 exactly for no rows |
| Users.EveryRowOnSomePage | services/user_service.py:250-272 | every matching row lies on one of the pages the count announces |
| Users.UserTable.constructor | services/user_service.py:15 | the table starts empty and valid |
| Users.UserTable.CreateUser | services/user_service.py:15-67 | an e-mail already present gives 409 and writes nothing; otherwise the new active user is added and returned without the hash with 201; a failed commit rolls back with 500 |
| Users.UserTable.GetUserById | services/user_service.py:69-102 | the user without the password hash with 200, or 404; 500 on a database error |
| Users.UserTable.GetUserByEmail | services/user_service.py:104-138 | the user with the password hash with 200, or 404; 500 on a database error |
| Users.UserTable.UpdateUser | services/user_service.py:140-192 | a missing id gives 404 and changes nothing; a `null` for a NOT NULL column, or a failed commit, rolls back with 500; otherwise only the fields the request set change, on that row only, and the updated user is returned |
| Users.UserTable.DeleteUser | services/user_service.py:194-224 | a missing id gives `(False, 404)` and changes nothing; otherwise exactly that row is removed with `(True, 200)`; a failed commit rolls back with `(False, 500)` |
| Users.UserTable.ListUsers | services/user_service.py:226-285 | the users matching the role and status filters (a NULL status matches no filter), newest first, the requested page of them, with the total of all matches; a negative offset or limit or a database error gives 500 |
| Users.DropKeepsValid | services/user_service.py:207-213 | removing a row keeps ids ascending and e-mails unique |
| Users.EndpointGate | routes/users.py:15-24 | `/me` needs an authenticated caller; every other user endpoint needs an administrator |
| Users.OnlyAdminsManageUsers | routes/users.py:15-24 | a non-administrator is refused with 403 from every endpoint other than `/me` |
| Users.ActivationUpdate | routes/users.py:137 | activation and deactivation set `is_active` and nothing else |
| Users.ActivationChangesOnlyStatus | routes/users.py:130-160 | activating or deactivating changes the account's status and its update time and nothing else |
| Users.DeleteMissingUserAnswersNoContent | routes/users.py:112-123 | deleting a user that does not exist answers 204 |
| Users.DeleteRouteStatus | routes/users.py:112-123 | unpacking the pair, 204 exactly when the row was removed and 404 otherwise; a refused caller gets the gate's status |
| Users.UserRoutesFailAsWritten | routes/users.py:31-161 | as written, an admitted caller of get, `/me`, update, activate or deactivate gets 500 both for a found user and for a missing one |
| Users.UserRouteStatus | routes/users.py:31-161 | unpacking the pair, an admitted caller gets 200 exactly when the service found the user and 404 otherwise; a refused caller gets the gate's status |
| Users.ListRouteFailsAsWritten | routes/users.py:49-66 | as written, an administrator listing users gets 500 even when the service answers a listing |
| Users.ListRouteStatus | routes/users.py:49-66 | unpacking the pair, an admitted caller gets 200 exactly when the service answered a listing and 500 otherwise; a refused caller gets the gate's status |
| Text.Strip | models/schemas.py:22 | `strip()` returns a slice of the text that neither starts nor ends with whitespace; with `StripTrims` and `StripIsTheTrim` it is the one maximal trim |
| Text.LStrip | models/schemas.py:22 | the leading whitespace removed, and only that |
| Text.RStrip | models/schemas.py:22 | the trailing whitespace removed, and only that |
| Text.StripTrims | models/schemas.py:22 | `strip()` removes whitespace only, and all of it at both ends |
| Text.StripIsTheTrim | models/schemas.py:22 | any text obtained by removing whitespace from both ends until neither end is whitespace is `strip()` of it |
| Text.TrimUnique | models/schemas.py:22 | a text has one trim only |
| Text.StripEmptyIffAllSpace | models/schemas.py:20 | the stripped text is empty exactly when the text is all whitespace |
| Text.StripIdempotent | models/schemas.py:22 | stripping twice is stripping once |
| Text.NatToString | routes/files.py:649 | `str(n)` of a natural number is a digit string without a leading zero |
| Text.ParseInt | services/file_service.py:355 | `int(s)` succeeds exactly when the stripped text is an optional sign followed by decimal digits, and then its value is that signed numeral's |
| Text.ParseIntOfStripped | services/file_service.py:355 | surrounding whitespace does not change what `int()` reads |
| Text.ParseIntOfDigits | services/file_service.py:355 | a digit string reads as its decimal value |
| Text.ParseIntOfSigned | services/file_service.py:355 | a digit string behind `-` or `+` reads as that signed value |
| Text.ParseIntOfNegated | services/file_service.py:355 | `-` followed by digits reads as the negated value |
| Text.ParseIntOfPadded | services/file_service.py:355 | digits between whitespace read as their value |
| Text.ParseIntRefusesPoint | services/config_service.py:155-157 | `int()` refuses `digits.digits` |
| Text.ParseDecimal | services/config_service.py:158-161 | what `float()` reads of a decimal text is non-negative unless the text starts with `-` |
| Text.ParseDecimalReadsPoint | services/config_service.py:158-161 | `digits.digits` reads as its decimal value |
| Text.NatToStringParses | services/file_service.py:355 | `int(str(n)) == n` for a natural number |
| Text.NegatedNatToStringParses | services/file_service.py:355 | `int("-" + str(n)) == -n` |
| Text.DigitsValueOfNatToString | routes/files.py:649 | the digits `str(n)` writes spell `n` |
| Text.IntToStringParses | services/file_service.py:355 | `int(str(i)) == i` for every integer, so the caller's id survives being passed on as text |
| Text.IndexOf | app/utils/security.py:14 | the position of the first occurrence of the character, or the length when there is none |
| Text.FirstField | app/utils/security.py:14 | `split(c)[0]`: the longest prefix without `c`, followed by `c` when shorter than the text |
| Text.LastField | app/config.py:41 | the last piece of a split, as `hostname` takes the host after the last `@`: the longest suffix without `c`, preceded by `c` when shorter than the text |
| Text.Split | app/utils/security.py:14 | `split(c)` gives at least one piece, the first of which is the first field |
| Text.SplitPiecesFree | app/utils/security.py:14 | no piece of `split(c)` contains `c` |
| Text.JoinSplit | app/config.py:45 | joining the pieces of `split(c)` with `c` gives the text back |
| Text.Replace | config.py:25 | `str.replace` leaves a text without the pattern unchanged |
| Text.ReplaceRemovesAll | config.py:25 | after replacing `postgresql://` by `postgres://` no `postgresql://` is left, since the replacement cannot form a new occurrence |
| Text.ReplaceKeepsPrefix | config.py:25 | replacing `postgresql://` by `postgres://` cannot create a prefix that was not there |
| Text.Lower | app/utils/file_validator.py:23 | `lower()` maps each character by itself and keeps the length |
| Text.IntToString | routes/files.py:649 | `str(i)` is non-empty and starts with `-` exactly for a negative number |

## Left out

- Network, database drivers, S3, Redis and JWT/bcrypt libraries: each call's outcome (success, the error it raises, the value it answers) is an input of the modelled operation; the libraries themselves are not modelled.
- Clocks and randomness: the current time is a `now` parameter in whole seconds, and `uuid4().hex` is a 32-digit hex parameter; response times, `process_time` headers and timestamps in responses are not modelled.
- `isoformat` is a parameter (`iso`) of the serialisers; date formatting itself is not modelled.
- `json.loads` and `json.dumps` are parameters (an outcome datatype and a function); JSON text syntax is not modelled.
- Floats: the book price is a `real`. The `Float` columns `score` and `processing_time_ms` of `file_uploads` (models/files.py:18, 25) hold whole numbers in `FileRecords` and `FileVersions`, which keep their defaults of 0 exact; fractional values are not modelled.
- FileVersions.Accepts: a NULL `score` or `processing_time_ms`, which the nullable `Float` columns allow, is refused with 500; a float value, and the driver's coercion of a bool or int to another column type, are not modelled.
- FileVersions.UpdateRecord: updates naming `id` or `file_metadata` are not modelled (the first rewrites the primary key, the second needs the JSON value); nor are the relationship and declarative attributes `parent_version`, `child_versions` and `metadata`, which `hasattr` also finds (models/files.py:57-66).
- FileVersions.Accepts: the model carries no datetime value, so an update of `created_at` or `updated_at` always fails with 500; JSON updates carry none either.
- FileVersions.UpdateRecord: the `user_id` foreign key to `users` (models/files.py:20) is not checked, because the users table is another module's; a `user_id` naming no user commits in the model.
- FileVersions.DeleteIds: ON DELETE SET NULL clears a deleted row's children's parent id; whether the database also refreshes their `updated_at` is not modelled, and they keep theirs.
- DbHealth.BackoffInterval: the backoff multiplier (a float, 2.0 by default, database.py:65) is a natural number and intervals are whole seconds, because the proofs need exact arithmetic.
- Text: `lower` and `isdigit` are modelled on ASCII only; Unicode case folding and non-ASCII digits are not.
- Async behaviour: sessions, `session_scope`, the asyncio lock, scoped sessions and concurrent requests are not modelled; every operation runs to completion alone.
- The connection pool of the asyncpg application is the `initialized` and `fault` inputs of `UploadsService.UploadTable`; a CHECK violation on insert is folded into `fault`.
- The e-mail regular-expression CHECK on `users` (models/database_models.py) is not modelled; the other CHECKs are.
- Schemas.ValidateUserCreate: what the e-mail validator library behind `EmailStr` (models/schemas.py:112) makes of an address is an input; its address syntax and normalisation are not modelled.
- Queries: rows with equal timestamps keep their table order, where PostgreSQL leaves the order open.
- Redis: scan cursors are replaced by the list of batches the scan yields; a negative ttl is not modelled; `invalidate_file_cache`, `cache_file_list`, `get_cached_file_list`, `invalidate_file_list_cache`, `cache_file_metadata` and `get_cached_file_metadata` (app/services/redis_service.py:232-334) use the same missing `redis_client` attribute as `cache_file` and are not modelled separately.
- The rate limiter keeps its counters in the `counts` map rather than through `redis_service.increment`, and the window expiry is the `WindowEnds` event.
- services/redis_service.py, app/services/login_history_service.py and app/services/user_service.py, which some modules import, are not part of this model; the application-package Redis service and the top-level login and user services are modelled instead.
- models/schemas.py:120 decorates `validate_password` with `validator`, which the module does not import; the model assumes the validator runs as its duplicate in app/schemas/users.py does.
- The services import schemas/files.py, whose `FileUploadRecord` lacks `version_comment` and `to_dict` and types `user_id` as text; the model follows models/files.py.
- routes/files.py carries its own copies of `FileValidator`, `MetadataHandler`, `get_client_ip` and `generate_safe_filename`; they match the application-package versions and are modelled once.
- Content reading (`read_file_content_safely`, `_decode_content`, chardet) in routes/files.py is an outcome input of the upload routes.
- `list_uploads` (every version, services/file_service.py:550-698) is only an input of `UploadRoutes.ListUploadRecords`.
- `get_history_stats`: the ten most active users (services/file_history_service.py:205-212) are not modelled; totals and per-action counts are.
- The history entries that `create_new_version` and `restore_version` write through `log_file_action` are not modelled in `FileVersions`; `FileHistory` models `log_file_action` itself.
- services/uploads_service.py, the ORM variant of the uploads service, is not part of this model; the asyncpg variant in uploads_service.py is.
- The random-book and book-statistics routes, the legacy add route, the exception handlers and the lifespan hooks of Backup-main.py and routes/books.py are not modelled.
- services/user_service.py:9 and services/file_service.py:10 import `User` from schemas/users.py, which defines none, so both modules fail at import as written; the model assumes the import resolves and models the services' own logic.
- The Books routes depend on `auth_service.get_current_user` (routes/books.py:28, 74 and the others); its 401 for a missing or invalid token is not modelled, and every Books member starts from an authenticated caller.
- The methods of `UploadsService.UploadTable` acquire their connection through the corrected `UploadsService.EnsureDbConnection`; as written every one of them fails at `acquire`, which `UploadsService.EnsureDbConnectionAsWritten` records once.
- models/database_sqlalchemy.py:40 hands `conn.execute` a raw SQL string, which SQLAlchemy 2.x refuses without `text()`; the model takes that probe's outcome as an input like the other checker's.
- ConfigService.ConvertConfigValue: `float()` also reads exponents, `inf`, `nan` and underscores; the model reads only an optional sign, digits and an optional decimal part, and refuses the rest.
- Text.ParseInt: `int()` also accepts underscores between digits and non-ASCII digits; the model refuses both.
- FileHistory.RetentionDays: a float retention is refused (500), where `timedelta` would accept it. A retention of 10^9 days or more, or one that moves the cutoff outside the `datetime` range, overflows in the source; `RetentionDays` accepts it, and `CleanupOldHistory` and `GetHistoryStats` then answer 500 through `CutoffInRange`.
- RateLimiter.RateLimiterMiddleware.Dispatch: the model answers 429; the source raises the `HTTPException` inside a `BaseHTTPMiddleware`, where it is not turned into a 429 response and surfaces as a 500.
- LegacyS3.ListFiles: the `ClientError` text `str(e)` is the error's message input; botocore's message formatting is not modelled.
- Validation errors: pydantic v2 reports every failing field; the validators of `Schemas` report the first one, which decides the same 422 status.
- FileVersions.RestoredRow: the restored row's `user_id` is the parsed integer, where file_version_service.py:270 stores the raw text and leaves the conversion to the driver.
- The `ordered` input of the listing members is the database's ordering and is not derived from the sort specification.
- The route modules import services/auth_service.py (routes/files.py:18, routes/users.py:9, routes/dependencies.py:9), whose `get_current_user` (services/auth_service.py:69-101) raises 401 or returns a bare `TokenData` and which has no `get_current_user_dependency`, so routes/files.py fails with `AttributeError` when it loads (line 632). The model wires the upload and user routes to the `(user, status)` pair of app/services/auth_service.py instead, which the routes' unpacking expects.
- UploadRoutes.ListUploadRecords, UploadRoutes.UploadFile, UploadRoutes.UploadMultipleFiles and UploadRoutes.DeleteUploadRecord start from a request that carries an `Authorization: Bearer` header. Without one, `OAuth2PasswordBearer` answers 401 `Not authenticated` before the query parameters are validated and before the route runs, so a listing with `limit=0` and no header is 401, not 422.
- ConfigInitializer.ResetToDefaults: the raw `DELETE FROM system_config` text (services/config_initializer.py:137) is not wrapped in `text()`; SQLAlchemy 2.x refuses it, so under that version every reset raises, rolls back and answers `False`. Which version runs is not part of the model: the `deleteRaised` input is the outcome of that statement.
- Auth.GetCurrentUser: an explicit JSON `null` role in the token cannot be told from an absent one. `payload.get("role", "user")` then yields `None`, `TokenData` refuses it and the answer is 500, where the model reads the role as absent and defaults it to `user`.
- The `/health/redis/status` route (app/api/v1/routes/health.py:251-288) only reports configuration values and is not modelled.

## Findings

| source | as written | input that shows it | evidently intended | confidence | as-written member | corrected member |
|---|---|---|---|---|---|---|
| services/file_version_service.py:243-279 | the restored copy reuses the restored row's `s3_key`, a unique column (models/files.py:13), so its INSERT always fails | restoring version 1 of a file whose versions 1 and 2 are stored: the copy repeats version 1's key | a restore adds a new current row with the restored content, unique per key and version | not executed | FileVersions.RestoreNeverCreates | FileVersions.RestoreByKeyVersionSucceeds |
| services/file_service.py:42-51 | the existence check matches filename and user, while the version service finds the current row by filename alone | user 1 uploads `report.txt`, then user 2 uploads `report.txt`: two current rows, and user 1's next upload fails with 500 | one current row per filename after every upload | not executed | FileVersions.SecondUploaderBreaksOneCurrent | FileVersions.CreateByFilenameKeepsOneCurrent |
| uploads_service.py:125-131 | the user filter is always `$1` and the folder filter always `$2` | `user_id` None and `folder` "docs": the count query uses `$2` with one argument bound | placeholders numbered after the arguments already bound | not executed | UploadsService.BuildListQueryAsWritten | UploadsService.BuildListQuery |
| uploads_service.py:13-18 | `ensure_db_initialized` answers a bool, never `None`, and the bool is used as the pool | any call: `True.acquire()` raises | the pool when initialisation succeeds, an error otherwise | not executed | UploadsService.EnsureDbConnectionAsWritten | UploadsService.EnsureDbConnection |
| routes/users.py:118-123 | `not success` tests the `(success, status)` pair, which is always truthy | deleting a user id that does not exist answers 204 | 404 unless the row was removed | not executed | Users.DeleteMissingUserAnswersNoContent | Users.DeleteRouteStatus |
| routes/users.py:36-42 | `not user` tests the `(user, status)` pair the service returns, which is always truthy, and the pair is returned as a `UserResponse` (also lines 79-85, 99-105, 136-142, 155-161) | getting a user id that exists: the pair fails response validation and the caller gets 500; a missing id gets 500, not 404 | 200 with the user, 404 when the service found none | not executed | Users.UserRoutesFailAsWritten | Users.UserRouteStatus |
| routes/users.py:59-60 | `UserListResponse(**result)` unpacks the `(listing, status)` pair as keywords, which raises `TypeError`, caught as 500 | an administrator listing page 1 | 200 with the listing | not executed | Users.ListRouteFailsAsWritten | Users.ListRouteStatus |
| app/services/redis_service.py:200-230 | `cache_file` and `get_cached_file` call `self.redis_client`, which the class never sets; the `AttributeError` is caught | any call on an available service: nothing is cached, no hit is ever returned | use the service's own `self.redis` connection | not executed | Redis.RedisService.CacheFileAsWritten | Redis.RedisService.CacheFile |
| database.py:238-248 | after a failed health check, reinitialisation verifies through the same throttled checker, which answers its stored failure | an engine whose check fails at time t: the reinitialisation at t raises `Initial database health check failed` | the new engine is probed, so a recovered database comes back | not executed | DbHealth.DatabaseManager.EnsureInitialized | DbHealth.DatabaseManager.EnsureInitializedRecovering |
| routes/files.py:662 | `limit`, `offset` and the session are passed by position and land in `sort_by`, `sort_order` and `limit` | page 3 with limit 10: the service answers the first 100 current records | the requested page | not executed | UploadRoutes.AsWrittenIgnoresPage | UploadRoutes.ByNameReturnsThePage |
| routes/files.py:760 | the record's integer `user_id` is compared with the caller's id as text | a non-admin owner deleting their own record gets 403 | owners may delete their own records | not executed | UploadRoutes.OwnersCannotDeleteAsWritten | UploadRoutes.DeleteUploadRecord |
