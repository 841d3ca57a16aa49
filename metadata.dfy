/** JSON values and `MetadataHandler.parse_metadata`. */
module Metadata {
  import opened Wrappers

  /** A JSON document as `json.loads` returns it. */
  datatype Json =
    | JNull
    | JBool(b: bool)
    | JNumber(n: int)
    | JString(s: string)
    | JArray(items: seq<Json>)
    | JObject(fields: map<string, Json>)

  /** What `json.loads` did with the text: a value, a decode error, or another exception. */
  datatype ParseOutcome = Parsed(value: Json) | DecodeError(reason: string) | OtherError(reason: string)

  /** `(parsed, error, status)` as `parse_metadata` returns it. */
  datatype MetadataResult = MetadataResult(metadata: Option<map<string, Json>>, error: Option<string>, code: Option<int>)

  /**
   * `parse_metadata`: absent or empty text means no metadata and no error; a
   * parsed JSON object is returned as it is; any other JSON value, and a decode
   * error, are 400; any other exception is 500.  `outcome` is what `json.loads`
   * produced on the text.
   */
  function ParseMetadata(text: Option<string>, outcome: ParseOutcome): (r: MetadataResult)
    ensures (text.None? || text.value == "") ==> r == MetadataResult(None, None, None)
    ensures r.error.None? <==> r.code.None?
    ensures r.metadata.Some? ==> r.error.None? && outcome == Parsed(JObject(r.metadata.value))
    ensures text.Some? && text.value != "" ==>
      (r.metadata.Some? <==> outcome.Parsed? && outcome.value.JObject?)
    ensures text.Some? && text.value != "" && !(outcome.Parsed? && outcome.value.JObject?) ==>
      r.code == Some(if outcome.OtherError? then 500 else 400)
  {
    if text.None? || text.value == "" then MetadataResult(None, None, None)
    else match outcome
      case Parsed(JObject(fields)) => MetadataResult(Some(fields), None, None)
      case Parsed(_) => MetadataResult(None, Some("Metadata must be a JSON object"), Some(400))
      case DecodeError(reason) => MetadataResult(None, Some("Invalid metadata JSON: " + reason), Some(400))
      case OtherError(reason) => MetadataResult(None, Some("Unexpected error parsing metadata: " + reason), Some(500))
  }
}
