/**
 * `FileValidator`: the basic size/extension check of an uploaded file and the
 * sanitisation of a user-chosen filename.
 */
module FileValidation {
  import opened Wrappers
  import Text
  import Settings

  const BAD_REQUEST := 400
  const PAYLOAD_TOO_LARGE := 413
  const UNSUPPORTED_MEDIA_TYPE := 415

  /** Characters that `validate_filename` replaces by `_`. */
  const INVALID_FILENAME_CHARS: string := "<>:\"/\\|?*"

  /** Length limit of a sanitised filename. */
  const MAX_FILENAME_LENGTH: nat := 255

  /** Python's truthiness of an optional string. */
  predicate Truthy(s: Option<string>)
  {
    s.Some? && s.value != ""
  }

  /** The last meaningful component of a POSIX path (`PurePosixPath(f).name`). */
  function PathName(f: string): (r: string)
    ensures !('/' in r)
  {
    Text.SplitPiecesFree(f, '/');
    LastComponent(Text.Split(f, '/'))
  }

  function LastComponent(parts: seq<string>): (r: string)
    requires forall i :: 0 <= i < |parts| ==> !('/' in parts[i])
    ensures !('/' in r)
  {
    if parts == [] then ""
    else if parts[|parts| - 1] == "" || parts[|parts| - 1] == "." then LastComponent(parts[..|parts| - 1])
    else parts[|parts| - 1]
  }

  /**
   * `PurePosixPath(f).suffix`: from the last dot of the name, provided that dot
   * is neither the first nor the last character of the name; otherwise empty.
   */
  function Suffix(f: string): (r: string)
    ensures r == [] || (|r| >= 2 && r[0] == '.' && !('.' in r[1..]) && !('/' in r))
  {
    var name := PathName(f);
    var k := Text.AfterLastIndex(name, '.');
    if 2 <= k < |name| then
      assert name[k - 1..][1..] == name[k..];
      name[k - 1..]
    else []
  }

  /** `s.lstrip(c)` */
  function LStripChar(s: string, c: char): (r: string)
    ensures Text.EndsWith(s, r)
    ensures r != [] ==> r[0] != c
  {
    if s != [] && s[0] == c then
      var r := LStripChar(s[1..], c);
      assert s[1..][|s| - 1 - |r|..] == s[|s| - |r|..];
      r
    else
      assert s[|s| - |s|..] == s;
      s
  }

  /** `Path(f).suffix.lower().lstrip('.')`: the extension the validator compares. */
  function Extension(f: string): (e: string)
    ensures e == [] || Settings.IsPlainExtension(e)
  {
    var sfx := Text.Lower(Suffix(f));
    LoweredSuffixShape(f);
    LStripChar(sfx, '.')
  }

  lemma LoweredSuffixShape(f: string)
    ensures var low := Text.Lower(Suffix(f));
      low == [] || (Settings.IsPlainExtension(low[1..]) && LStripChar(low, '.') == low[1..])
  {
    var r := Suffix(f);
    var low := Text.Lower(r);
    if r != [] {
      assert low[0] == '.';
      forall i | 1 <= i < |low| ensures low[i] != '.' && low[i] != '/' && !('A' <= low[i] <= 'Z') {
        assert r[1..][i - 1] == r[i];
      }
      assert low[1..][0] != '.';
    }
  }

  /** A name without a slash is its own last path component. */
  lemma PathNameOfPlainName(f: string)
    requires !('/' in f) && f != "" && f != "."
    ensures PathName(f) == f
  {
    assert Text.IndexOf(f, '/') == |f|;
    assert Text.Split(f, '/') == [f];
  }

  /** The suffix of `base.e` is `.e` whenever `base` is a non-empty name. */
  lemma SuffixOfDottedName(base: string, e: string)
    requires |base| > 0 && !('/' in base) && base != "."
    requires Settings.IsPlainExtension(e)
    ensures Suffix(base + "." + e) == "." + e
  {
    var f := base + "." + e;
    assert !('/' in f) by {
      forall i | 0 <= i < |f| ensures f[i] != '/' {
        if i < |base| { assert f[i] == base[i]; }
        else if i > |base| { assert f[i] == e[i - |base| - 1]; }
      }
    }
    PathNameOfPlainName(f);
    assert f[|base|] == '.';
    assert forall j :: |base| < j < |f| ==> f[j] == e[j - |base| - 1];
    assert Text.AfterLastIndex(f, '.') == |base| + 1;
    assert f[|base|..] == "." + e;
  }

  /** The extension of `base.e` is `e` whenever `base` is a non-empty name. */
  lemma ExtensionOfDottedName(base: string, e: string)
    requires |base| > 0 && !('/' in base) && base != "."
    requires Settings.IsPlainExtension(e)
    ensures Extension(base + "." + e) == e
  {
    SuffixOfDottedName(base, e);
    var low := Text.Lower("." + e);
    assert low == "." + e by {
      forall i | 0 <= i < |low| ensures low[i] == ("." + e)[i] {
        if i > 0 { assert ("." + e)[i] == e[i - 1]; }
      }
    }
    assert LStripChar(low, '.') == LStripChar(e, '.');
  }

  /** The outcome of the basic check: accepted, or a message with an HTTP status. */
  datatype Verdict = Accepted | Rejected(message: string, code: int)

  /**
   * `validate_file_basic`: the filename must be present, a known size may not
   * exceed the maximum, and the lower-cased extension must be one of the union
   * of the configured lists.  The first failing rule decides the status.
   */
  function BasicVerdict(filename: Option<string>, size: Option<nat>): Verdict
  {
    if !Truthy(filename) then Rejected("Filename is required", BAD_REQUEST)
    else if size.Some? && size.value > Settings.MAX_FILE_SIZE then
      Rejected("File size too large. Maximum allowed: 100MB", PAYLOAD_TOO_LARGE)
    else
      var ext := Extension(filename.value);
      var allowed := Settings.ALLOWED_LIST;
      if ext == [] then Rejected("File must have an extension", BAD_REQUEST)
      else if !(ext in allowed) then
        Rejected("File type '" + ext + "' not allowed. Allowed types: " + Text.Join(allowed, ", "), UNSUPPORTED_MEDIA_TYPE)
      else Accepted
  }

  /**
   * The first failing rule of `validate_file_basic` decides the status, and a
   * file is accepted exactly when it has a name, fits the size limit and
   * carries one of the configured extensions.
   */
  lemma BasicVerdictRules(filename: Option<string>, size: Option<nat>)
    ensures var v := BasicVerdict(filename, size);
      !Truthy(filename) ==> v == Rejected("Filename is required", BAD_REQUEST)
    ensures var v := BasicVerdict(filename, size);
      Truthy(filename) && size.Some? && size.value > Settings.MAX_FILE_SIZE
      ==> v.Rejected? && v.code == PAYLOAD_TOO_LARGE
    ensures var v := BasicVerdict(filename, size);
      Truthy(filename) && !(size.Some? && size.value > Settings.MAX_FILE_SIZE) && Extension(filename.value) == []
      ==> v == Rejected("File must have an extension", BAD_REQUEST)
    ensures var v := BasicVerdict(filename, size);
      Truthy(filename) && !(size.Some? && size.value > Settings.MAX_FILE_SIZE)
      && Extension(filename.value) != [] && !(Extension(filename.value) in Settings.ALLOWED_LIST)
      ==> v.Rejected? && v.code == UNSUPPORTED_MEDIA_TYPE
    ensures BasicVerdict(filename, size) == Accepted <==>
      Truthy(filename) && !(size.Some? && size.value > Settings.MAX_FILE_SIZE)
      && Extension(filename.value) in Settings.ALLOWED_LIST
  {
    if Truthy(filename) && !(size.Some? && size.value > Settings.MAX_FILE_SIZE) {
      var ext := Extension(filename.value);
      if ext == [] {
        assert BasicVerdict(filename, size) == Rejected("File must have an extension", BAD_REQUEST);
      } else if !(ext in Settings.ALLOWED_LIST) {
        assert BasicVerdict(filename, size).code == UNSUPPORTED_MEDIA_TYPE;
      } else {
        assert BasicVerdict(filename, size) == Accepted;
      }
    }
  }

  /**
   * `validate_file_basic` as the source runs it, collecting the allowed
   * extensions with a loop before comparing.
   */
  method ValidateFileBasic(filename: Option<string>, size: Option<nat>) returns (v: Verdict)
    ensures v == BasicVerdict(filename, size)
  {
    if !Truthy(filename) {
      return Rejected("Filename is required", BAD_REQUEST);
    }
    if size.Some? && size.value > Settings.MAX_FILE_SIZE {
      return Rejected("File size too large. Maximum allowed: 100MB", PAYLOAD_TOO_LARGE);
    }
    var ext := Extension(filename.value);
    if ext == [] {
      return Rejected("File must have an extension", BAD_REQUEST);
    }
    var allowed := CollectExtensions(Settings.ALLOWED_EXTENSIONS);
    Settings.FlattenAllowed();
    if !(ext in allowed) {
      return Rejected("File type '" + ext + "' not allowed. Allowed types: "
        + Text.Join(allowed, ", "), UNSUPPORTED_MEDIA_TYPE);
    }
    return Accepted;
  }

  /**
   * The loop of `validate_file_basic` that extends `allowed_extensions` with
   * each list of the category dictionary in turn.
   */
  method CollectExtensions(groups: seq<(string, seq<string>)>) returns (allowed: seq<string>)
    ensures allowed == Settings.Flatten(groups)
  {
    allowed := [];
    var i := 0;
    while i < |groups|
      invariant 0 <= i <= |groups|
      invariant allowed + Settings.Flatten(groups[i..]) == Settings.Flatten(groups)
    {
      assert groups[i..] == [groups[i]] + groups[i + 1..];
      allowed := allowed + groups[i].1;
      i := i + 1;
    }
  }

  /** Replacement of one character by `validate_filename`. */
  function SafeChar(c: char): (d: char)
    ensures !(d in INVALID_FILENAME_CHARS)
    ensures !(c in INVALID_FILENAME_CHARS) ==> d == c
  {
    if c in INVALID_FILENAME_CHARS then '_' else c
  }

  /** Every character mapped through `SafeChar`, position by position. */
  function Sanitize(s: string): (r: string)
    ensures |r| == |s|
    ensures forall i :: 0 <= i < |s| ==> r[i] == SafeChar(s[i])
  {
    if s == [] then [] else [SafeChar(s[0])] + Sanitize(s[1..])
  }

  /** A validated filename or the error and status `validate_filename` returns. */
  datatype Checked = Valid(name: string) | Invalid(message: string, code: int)

  /**
   * `validate_filename`: empty input is the only error; otherwise the nine
   * invalid characters become `_`, every other character stays in place, and
   * the result is cut to at most 255 characters.
   */
  function ValidateFilename(filename: string): (r: Checked)
    ensures filename == [] <==> r == Invalid("Filename cannot be empty", BAD_REQUEST)
    ensures r.Valid? ==> |r.name| == if |filename| <= MAX_FILENAME_LENGTH then |filename| else MAX_FILENAME_LENGTH
    ensures r.Valid? ==> forall i :: 0 <= i < |r.name| ==>
      (filename[i] in INVALID_FILENAME_CHARS ==> r.name[i] == '_') &&
      (!(filename[i] in INVALID_FILENAME_CHARS) ==> r.name[i] == filename[i])
  {
    if filename == [] then Invalid("Filename cannot be empty", BAD_REQUEST)
    else
      var sanitized := Sanitize(filename);
      if |sanitized| > MAX_FILENAME_LENGTH then Valid(sanitized[..MAX_FILENAME_LENGTH]) else Valid(sanitized)
  }

  /** A sanitised name is accepted again unchanged: sanitisation is idempotent. */
  lemma ValidateFilenameIdempotent(filename: string)
    requires filename != []
    ensures ValidateFilename(filename).Valid?
    ensures ValidateFilename(ValidateFilename(filename).name) == ValidateFilename(filename)
  {
    var n := ValidateFilename(filename).name;
    var m := ValidateFilename(n);
    assert m.Valid?;
    assert m.name == n;
  }
}
