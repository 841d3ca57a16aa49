/** Upload limits and allowed file types shared by the configuration modules. */
module Settings {

  const MAX_FILE_SIZE_MB: nat := 100

  /** `MAX_FILE_SIZE_MB * 1024 * 1024` bytes. */
  const MAX_FILE_SIZE: nat := MAX_FILE_SIZE_MB * 1024 * 1024

  /** `ALLOWED_EXTENSIONS`, a dictionary from category to extensions, in insertion order. */
  const ALLOWED_EXTENSIONS: seq<(string, seq<string>)> := [
    ("image", ["jpg", "jpeg", "png", "gif", "webp"]),
    ("document", ["pdf", "doc", "docx", "txt", "csv", "xlsx"]),
    ("video", ["mp4", "mov", "avi", "mkv"]),
    ("audio", ["mp3", "wav", "ogg"])
  ]

  /** The lists of a category dictionary, concatenated in order. */
  function Flatten(groups: seq<(string, seq<string>)>): (r: seq<string>)
    ensures forall e :: e in r <==> exists g :: g in groups && e in g.1
  {
    if groups == [] then [] else groups[0].1 + Flatten(groups[1..])
  }

  /** An extension as the validator compares it: non-empty, lower case, no dots. */
  predicate IsPlainExtension(e: string)
  {
    |e| > 0 && forall i :: 0 <= i < |e| ==> e[i] != '.' && e[i] != '/' && !('A' <= e[i] <= 'Z')
  }

  /** The union of the configured lists, in the order the validator builds it. */
  const ALLOWED_LIST: seq<string> := ["jpg", "jpeg", "png", "gif", "webp", "pdf", "doc", "docx", "txt", "csv", "xlsx", "mp4", "mov", "avi", "mkv", "mp3", "wav", "ogg"]

  lemma {:induction false} FlattenAllowed()
    ensures Flatten(ALLOWED_EXTENSIONS) == ALLOWED_LIST
  {
    var g := ALLOWED_EXTENSIONS;
    assert Flatten(g[3..]) == g[3].1 + Flatten(g[4..]);
    assert Flatten(g[2..]) == g[2].1 + Flatten(g[3..]);
    assert Flatten(g[1..]) == g[1].1 + Flatten(g[2..]);
  }

  /** Every configured extension is lower case with no leading dot. */
  lemma AllowedExtensionsArePlain()
    ensures forall e :: e in Flatten(ALLOWED_EXTENSIONS) ==> IsPlainExtension(e)
  {
    FlattenAllowed();
    forall i | 0 <= i < |ALLOWED_LIST| ensures IsPlainExtension(ALLOWED_LIST[i]) { }
  }
}
