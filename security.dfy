/** Client address resolution and generated filenames for uploads. */
module Security {
  import opened Wrappers
  import Text
  import FileValidation

  /**
   * `get_client_ip`: a non-empty `X-Forwarded-For` header wins and yields the
   * first comma-separated entry, stripped; otherwise a non-empty `X-Real-IP`,
   * stripped; otherwise the connection's host, or `"unknown"` without one.
   * The header values are passed in already looked up.
   */
  function GetClientIp(forwardedFor: Option<string>, realIp: Option<string>, clientHost: Option<string>): (r: string)
    ensures FileValidation.Truthy(forwardedFor) ==> r == Text.Strip(Text.FirstField(forwardedFor.value, ','))
    ensures FileValidation.Truthy(forwardedFor) ==>
      exists i :: 0 <= i <= |forwardedFor.value| && WithinFirstEntry(forwardedFor.value, r, i)
    ensures !FileValidation.Truthy(forwardedFor) && FileValidation.Truthy(realIp) ==>
      r == Text.Strip(realIp.value)
    ensures !FileValidation.Truthy(forwardedFor) && !FileValidation.Truthy(realIp) ==>
      r == clientHost.GetOr("unknown")
  {
    if FileValidation.Truthy(forwardedFor) then
      var r := Text.Strip(Text.FirstField(forwardedFor.value, ','));
      FirstEntryLocated(forwardedFor.value);
      r
    else if FileValidation.Truthy(realIp) then Text.Strip(realIp.value)
    else clientHost.GetOr("unknown")
  }

  /** `r` occurs at `i` in `s`, entirely before the first comma. */
  predicate WithinFirstEntry(s: string, r: string, i: int)
  {
    Text.OccursAt(s, r, i) && i + |r| <= Text.IndexOf(s, ',')
  }

  /**
   * The stripped first entry is the text before the first comma with its
   * outer whitespace trimmed, and it lies wholly before that comma.
   */
  lemma FirstEntryLocated(s: string)
    ensures var r := Text.Strip(Text.FirstField(s, ','));
      exists i :: 0 <= i <= |s| && WithinFirstEntry(s, r, i) && Text.Trimmed(s[..Text.IndexOf(s, ',')], r, i, Text.IsSpace)
  {
    var first := Text.FirstField(s, ',');
    assert first == s[..Text.IndexOf(s, ',')];
    var r := Text.Strip(first);
    Text.StripIsTrimmed(first);
    var i :| Text.Trimmed(first, r, i, Text.IsSpace);
    OccursInPrefix(s, Text.IndexOf(s, ','), r, i);
    assert WithinFirstEntry(s, r, i);
  }

  /** What occurs in the first `k` characters of `s` occurs in `s`, ending by `k`. */
  lemma OccursInPrefix(s: string, k: nat, sub: string, i: int)
    requires k <= |s| && Text.OccursAt(s[..k], sub, i)
    ensures Text.OccursAt(s, sub, i) && i + |sub| <= k
  {
    assert s[i..i + |sub|] == s[..k][i..i + |sub|];
  }

  /**
   * With `X-Forwarded-For` set, the client address is the one text obtained
   * by trimming the whitespace around the header's first entry, whatever the
   * other sources say.
   */
  lemma ClientIpIsTrimmedFirstEntry(ff: string, r: string, i: int, realIp: Option<string>, host: Option<string>)
    requires ff != "" && Text.Trimmed(ff[..Text.IndexOf(ff, ',')], r, i, Text.IsSpace)
    ensures GetClientIp(Some(ff), realIp, host) == r
  {
    Text.StripIsTheTrim(ff[..Text.IndexOf(ff, ',')], r, i);
  }

  /** Once `X-Forwarded-For` is non-empty, the other sources are never consulted. */
  lemma ForwardedForTakesPrecedence(ff: string, r1: Option<string>, h1: Option<string>, r2: Option<string>, h2: Option<string>)
    requires ff != ""
    ensures GetClientIp(Some(ff), r1, h1) == GetClientIp(Some(ff), r2, h2)
  {
  }

  /** Lower-case hexadecimal, the alphabet of `uuid4().hex`. */
  predicate IsHex32(s: string)
  {
    |s| == 32 && forall i :: 0 <= i < |s| ==> ('0' <= s[i] <= '9') || ('a' <= s[i] <= 'f')
  }

  /**
   * `generate_safe_filename`: the lower-cased suffix of the original name is
   * appended either to the sanitised custom name or to a fresh 32-digit hex
   * identifier (passed in, since it is random).  A truthy custom name is never
   * empty, so the error branch of the source cannot be taken.
   */
  function GenerateSafeFilename(original: string, custom: Option<string>, uuidHex: string): (r: FileValidation.Checked)
    requires IsHex32(uuidHex)
    ensures r.Valid?
  {
    var ext := Text.Lower(FileValidation.Suffix(original));
    if FileValidation.Truthy(custom) then
      match FileValidation.ValidateFilename(custom.value)
      case Invalid(msg, code) => assert false; FileValidation.Invalid(msg, code)
      case Valid(safe) => FileValidation.Valid(safe + ext)
    else FileValidation.Valid(uuidHex + ext)
  }

  /**
   * The generated name is one path component ending with the lower-cased
   * suffix of the original; what precedes the suffix is a non-empty name
   * free of the nine invalid characters, which `validate_filename` accepts
   * unchanged, when a custom name is given, and 32 hex digits otherwise.
   */
  lemma SafeFilenameShape(original: string, custom: Option<string>, uuidHex: string)
    requires IsHex32(uuidHex)
    ensures var r := GenerateSafeFilename(original, custom, uuidHex).name;
      var ext := Text.Lower(FileValidation.Suffix(original));
      Text.EndsWith(r, ext) && !('/' in r) &&
      (FileValidation.Truthy(custom) ==>
        var stem := r[..|r| - |ext|];
        stem != [] && (forall k :: 0 <= k < |stem| ==> !(stem[k] in FileValidation.INVALID_FILENAME_CHARS)) &&
        FileValidation.ValidateFilename(stem) == FileValidation.Valid(stem)) &&
      (!FileValidation.Truthy(custom) ==> IsHex32(r[..|r| - |ext|]))
  {
    var ext := Text.Lower(FileValidation.Suffix(original));
    LowerSuffixHasNoSlash(original);
    if FileValidation.Truthy(custom) {
      CustomStem(custom.value, ext);
    } else {
      HexStem(uuidHex, ext);
    }
  }

  lemma CustomStem(custom: string, ext: string)
    requires custom != [] && !('/' in ext)
    ensures var r := FileValidation.ValidateFilename(custom).name + ext;
      Text.EndsWith(r, ext) && !('/' in r) &&
      var stem := r[..|r| - |ext|];
      stem != [] && (forall k :: 0 <= k < |stem| ==> !(stem[k] in FileValidation.INVALID_FILENAME_CHARS)) &&
      FileValidation.ValidateFilename(stem) == FileValidation.Valid(stem)
  {
    var stem := FileValidation.ValidateFilename(custom).name;
    FileValidation.ValidateFilenameIdempotent(custom);
    StemHasNoSlash(stem);
    Text.ConcatEnds(stem, ext);
    assert (stem + ext)[..|stem + ext| - |ext|] == stem;
    NoSlashInConcat(stem, ext);
  }

  lemma HexStem(uuidHex: string, ext: string)
    requires IsHex32(uuidHex) && !('/' in ext)
    ensures var r := uuidHex + ext;
      Text.EndsWith(r, ext) && !('/' in r) && IsHex32(r[..|r| - |ext|])
  {
    Text.ConcatEnds(uuidHex, ext);
    assert (uuidHex + ext)[..|uuidHex + ext| - |ext|] == uuidHex;
    assert !('/' in uuidHex) by {
      forall k | 0 <= k < |uuidHex| ensures uuidHex[k] != '/' { }
    }
    NoSlashInConcat(uuidHex, ext);
  }

  lemma LowerSuffixHasNoSlash(original: string)
    ensures !('/' in Text.Lower(FileValidation.Suffix(original)))
  {
    var sfx := FileValidation.Suffix(original);
    var low := Text.Lower(sfx);
    forall k | 0 <= k < |low| ensures low[k] != '/' {
      assert low[k] == Text.LowerChar(sfx[k]);
    }
  }

  lemma StemHasNoSlash(stem: string)
    requires forall k :: 0 <= k < |stem| ==> !(stem[k] in FileValidation.INVALID_FILENAME_CHARS)
    ensures !('/' in stem)
  {
    assert '/' in FileValidation.INVALID_FILENAME_CHARS by {
      assert FileValidation.INVALID_FILENAME_CHARS[4] == '/';
    }
  }

  lemma NoSlashInConcat(a: string, b: string)
    requires !('/' in a) && !('/' in b)
    ensures !('/' in a + b)
  {
    forall k | 0 <= k < |a + b| ensures (a + b)[k] != '/' {
      if k < |a| { assert (a + b)[k] == a[k]; } else { assert (a + b)[k] == b[k - |a|]; }
    }
  }
}
