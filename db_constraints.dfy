/**
 * The CHECK constraints of the `users`, `books` and `file_uploads` tables,
 * as predicates on column values, and how they relate to the validation the
 * application does before it writes a row.
 */
module DbConstraints {
  import opened Wrappers
  import Text
  import Access
  import Users
  import Schemas
  import Books
  import FileRecords
  import FileValidation
  import AppS3Service

  // ------------------------------------------------------------------ users

  /** `role IN ('admin', 'user', 'moderator')` */
  predicate UserRoleCheck(role: string)
  {
    role == "admin" || role == "user" || role == "moderator"
  }

  /** The CHECK admits exactly the values of the application's role enumeration. */
  lemma UserRoleCheckIsEnum(role: string)
    ensures UserRoleCheck(role) <==> Access.ParseRole(role).Some?
    ensures UserRoleCheck(role) ==> Access.RoleValue(Access.ParseRole(role).value) == role
  {
  }

  /** A user row created by the service, and any update of it, satisfies the role CHECK. */
  lemma UserRowsKeepRoleCheck(id: nat, data: Users.UserCreate, hash: string -> string, u: Users.UserRow,
                              upd: Users.UserUpdate, now: nat)
    ensures UserRoleCheck(Users.NewUser(id, data, hash, now).role)
    ensures UserRoleCheck(u.role) && Users.ApplyUserUpdate(u, upd, now).Some? ==>
      UserRoleCheck(Users.ApplyUserUpdate(u, upd, now).value.role)
  {
    var r := Users.NewUser(id, data, hash, now).role;
    assert r == Access.RoleValue(data.role);
    if upd.role.To? && Users.ApplyUserUpdate(u, upd, now).Some? {
      assert Users.ApplyUserUpdate(u, upd, now).value.role == Access.RoleValue(upd.role.value);
    }
  }

  // ------------------------------------------------------------------ books

  /** `genre IN ('fiction', 'non-fiction')` and `price > 0` */
  predicate BookCheck(genre: string, price: real)
  {
    (genre == "fiction" || genre == "non-fiction") && price > 0.0
  }

  predicate BookRowCheck(b: Books.BookRow)
  {
    BookCheck(b.genre, b.price)
  }

  /**
   * The `Book` validator accepts exactly the requests with a valid name
   * whose genre and price satisfy the CHECK: the constraint never rejects
   * a validated book, and the validator rejects nothing the CHECK allows
   * except on the name.
   */
  lemma ValidatedBookMeetsCheck(name: string, genre: string, price: real)
    ensures Schemas.ValidateBook(name, genre, price).Accepted? <==>
      Schemas.BookName(name).Accepted? && BookCheck(genre, price)
    ensures Schemas.ValidateBook(name, genre, price).Accepted? ==>
      var b := Schemas.ValidateBook(name, genre, price).value;
      BookCheck(Schemas.GenreValue(b.genre), b.price)
  {
  }

  /**
   * An update that passed `BookUpdate` validation keeps a row within the
   * CHECK.
   */
  lemma BookRowsKeepCheck(b: Books.BookRow, name: Option<string>, genre: Option<string>, price: Option<real>, now: nat)
    requires BookRowCheck(b)
    requires Schemas.ValidateBookUpdate(name, genre, price).Accepted?
    ensures BookRowCheck(Books.ApplyBookUpdate(b, Schemas.ValidateBookUpdate(name, genre, price).value, now))
  {
    var upd := Schemas.ValidateBookUpdate(name, genre, price).value;
    var r := Books.ApplyBookUpdate(b, upd, now);
    if upd.genre.Some? {
      assert r.genre == Schemas.GenreValue(upd.genre.value) == genre.value;
    }
    if upd.price.Some? {
      assert r.price == price.value;
    }
  }

  // ------------------------------------------------------------ file uploads

  /** `upload_status IN ('success', 'failed', 'processing', 'error')` */
  predicate UploadStatusCheck(status: string)
  {
    status == "success" || status == "failed" || status == "processing" || status == "error"
  }

  /** The characters `check_filename_clean` forbids: the C0 controls but tab, line feed and carriage return, DEL, and the C1 controls. */
  predicate ControlChar(c: char)
  {
    ('\U{0}' <= c <= '\U{8}') || c == '\U{B}' || c == '\U{C}' || ('\U{E}' <= c <= '\U{1F}') || ('\U{7F}' <= c <= '\U{9F}')
  }

  /** `original_filename !~ '[\x00-\x08\x0B\x0C\x0E-\x1F\x7F-\x9F]'` */
  predicate FilenameClean(name: string)
  {
    forall i :: 0 <= i < |name| ==> !ControlChar(name[i])
  }

  /** `LENGTH(TRIM(original_filename)) > 0`: SQL's TRIM removes spaces only. */
  predicate FilenameNotBlank(name: string)
  {
    exists i :: 0 <= i < |name| && name[i] != ' '
  }

  /** The characters of `^[a-zA-Z0-9._/-]+$` */
  predicate KeyChar(c: char)
  {
    ('a' <= c <= 'z') || ('A' <= c <= 'Z') || ('0' <= c <= '9') || c == '.' || c == '_' || c == '/' || c == '-'
  }

  predicate KeyChars(s: string)
  {
    forall i :: 0 <= i < |s| ==> KeyChar(s[i])
  }

  /** `s3_key ~ '^[a-zA-Z0-9._/-]+$'` */
  predicate S3KeyCheck(key: string)
  {
    key != [] && KeyChars(key)
  }

  /** All CHECK constraints of `file_uploads`. */
  predicate FileUploadCheck(d: FileRecords.FileData)
  {
    d.fileSize >= 0 && 0 <= d.score <= 100 && UploadStatusCheck(d.uploadStatus) &&
    FilenameClean(d.originalFilename) && FilenameNotBlank(d.originalFilename) && S3KeyCheck(d.s3Key)
  }

  /**
   * A row inserted with only its required columns satisfies the CHECKs
   * exactly when its size, filename and key do: the column defaults (score
   * 0, status `success`) always pass.
   */
  lemma NewRowCheck(id: nat, originalFilename: string, s3Key: string, s3Url: string, fileSize: int,
                    contentType: string, now: nat)
    ensures FileUploadCheck(FileRecords.NewRow(id, originalFilename, s3Key, s3Url, fileSize, contentType, now).data)
      <==> fileSize >= 0 && FilenameClean(originalFilename) && FilenameNotBlank(originalFilename) && S3KeyCheck(s3Key)
  {
  }

  /** A slice of a string of key characters is made of key characters. */
  lemma KeyCharsOfSlice(s: string, sub: string, i: int)
    requires KeyChars(s) && Text.OccursAt(s, sub, i)
    ensures KeyChars(sub)
  {
    forall j | 0 <= j < |sub| ensures KeyChar(sub[j]) {
      assert sub[j] == s[i + j];
    }
  }

  /** A key joined from two parts by `/` is made of key characters exactly when both parts are. */
  lemma KeyCharsOfJoin(a: string, b: string)
    ensures KeyChars(a + "/" + b) <==> KeyChars(a) && KeyChars(b)
  {
    var key := a + "/" + b;
    if KeyChars(key) {
      KeyCharsOfSlice(key, a, 0);
      assert key[|a| + 1..] == b;
      KeyCharsOfSlice(key, b, |a| + 1);
    } else {
      var i :| 0 <= i < |key| && !KeyChar(key[i]);
      if i < |a| {
        assert key[i] == a[i];
      } else {
        assert i > |a| && key[i] == b[i - |a| - 1];
      }
    }
  }

  /**
   * The object key of the upload service satisfies the key CHECK exactly
   * when its stripped name is non-empty and its parts are key characters.
   */
  lemma ObjectKeyCheck(filename: string, folder: Option<string>)
    ensures AppS3Service.CleanFolder(folder).None? ==>
      (S3KeyCheck(AppS3Service.ObjectKey(filename, folder)) <==> S3KeyCheck(Text.Strip(filename)))
    ensures AppS3Service.CleanFolder(folder).Some? ==>
      var prefix := AppS3Service.StripChar(AppS3Service.CleanFolder(folder).value, '/');
      (S3KeyCheck(AppS3Service.ObjectKey(filename, folder)) <==> KeyChars(prefix) && KeyChars(Text.Strip(filename)))
  {
    if AppS3Service.CleanFolder(folder).Some? {
      var prefix := AppS3Service.StripChar(AppS3Service.CleanFolder(folder).value, '/');
      KeyCharsOfJoin(prefix, Text.Strip(filename));
    }
  }

  /**
   * Names and folders made of key characters give keys that pass the CHECK,
   * provided the name is not empty.
   */
  lemma ObjectKeyOfKeyChars(filename: string, folder: Option<string>)
    requires filename != [] && KeyChars(filename)
    requires folder.Some? ==> KeyChars(folder.value)
    ensures S3KeyCheck(AppS3Service.ObjectKey(filename, folder))
  {
    assert !Text.IsSpace(filename[0]) && !Text.IsSpace(filename[|filename| - 1]);
    Text.StripOfUnpadded(filename);
    ObjectKeyCheck(filename, folder);
    var c := AppS3Service.CleanFolder(folder);
    if c.Some? {
      var i :| 0 <= i <= |folder.value| && Text.OccursAt(folder.value, c.value, i);
      KeyCharsOfSlice(folder.value, c.value, i);
      var prefix := AppS3Service.StripChar(c.value, '/');
      var j :| 0 <= j <= |c.value| && Text.OccursAt(c.value, prefix, j);
      KeyCharsOfSlice(c.value, prefix, j);
    }
  }

  /**
   * A stripped name with a space in it, such as `my file.pdf`, gives a key
   * the CHECK rejects, so such an upload cannot be recorded.
   */
  lemma SpacedNameFailsKeyCheck(filename: string, folder: Option<string>, k: nat)
    requires k < |Text.Strip(filename)| && Text.Strip(filename)[k] == ' '
    ensures !S3KeyCheck(AppS3Service.ObjectKey(filename, folder))
  {
    SpaceInSuffix(AppS3Service.ObjectKey(filename, folder), Text.Strip(filename), k);
  }

  /** A string ending in a suffix that holds a space is not made of key characters. */
  lemma SpaceInSuffix(key: string, name: string, k: nat)
    requires Text.EndsWith(key, name)
    requires k < |name| && name[k] == ' '
    ensures !KeyChars(key)
  {
    assert key[|key| - |name| + k] == name[k];
  }

  /**
   * `validate_filename` keeps a name that passes the filename CHECKs within
   * them, provided the name is not blank within its first 255 characters:
   * it only replaces characters by `_` and cuts the name there.
   */
  lemma ValidatedFilenameMeetsChecks(filename: string, k: nat)
    requires FilenameClean(filename)
    requires k < |filename| && k < FileValidation.MAX_FILENAME_LENGTH && filename[k] != ' '
    ensures FileValidation.ValidateFilename(filename).Valid?
    ensures var name := FileValidation.ValidateFilename(filename).name;
      FilenameClean(name) && FilenameNotBlank(name)
  {
    var name := FileValidation.ValidateFilename(filename).name;
    assert name[k] == '_' || name[k] == filename[k];
  }

  /**
   * `validate_filename` accepts names the CHECKs reject: a name of spaces
   * only, and a name holding a control character, reach the insert.
   */
  lemma ValidatorAdmitsWhatChecksReject()
    ensures FileValidation.ValidateFilename("   ").Valid? && !FilenameNotBlank(FileValidation.ValidateFilename("   ").name)
    ensures FileValidation.ValidateFilename("a\U{1}").Valid? && !FilenameClean(FileValidation.ValidateFilename("a\U{1}").name)
  {
    var blank := FileValidation.ValidateFilename("   ").name;
    assert blank == "   ";
    var ctrl := FileValidation.ValidateFilename("a\U{1}").name;
    assert ctrl[1] == '\U{1}';
  }
}
