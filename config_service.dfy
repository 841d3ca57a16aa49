/**
 * `ConfigService`: typed key/value system configuration stored as strings,
 * with the type inferred from the text, default seeding and a guarded update.
 */
module ConfigService {
  import opened Wrappers
  import Text
  import Metadata

  /** The `config_type` column. */
  datatype ConfigType = Boolean | Number | JsonType | StringType

  /** A row of `system_config`. */
  datatype ConfigEntry = ConfigEntry(value: string, configType: ConfigType, description: string, editable: bool)

  /** One key's entry in the answer of `get_all_config`. */
  datatype ConfigView = ConfigView(value: ConfigValue, configType: ConfigType, description: string, isEditable: bool)

  /** What `_convert_config_value` returns. */
  datatype ConfigValue =
    | BoolValue(b: bool)
    | IntValue(i: int)
    | FloatValue(x: real)
    | JsonValue(j: Metadata.Json)
    | StringValue(s: string)
  {
    /** Python truthiness of the converted value. */
    predicate Truthy()
    {
      match this
      case BoolValue(b) => b
      case IntValue(i) => i != 0
      case FloatValue(x) => x != 0.0
      case JsonValue(j) =>
        (match j
         case JNull => false
         case JBool(b) => b
         case JNumber(n) => n != 0
         case JString(s) => s != ""
         case JArray(items) => items != []
         case JObject(fields) => fields != map[])
      case StringValue(s) => s != ""
    }
  }

  /**
   * A value sent to `update_config` (the JSON body's `value`): a boolean, an
   * integer, a string, `None`, or any other value (a float, a list, a
   * dictionary), given by the text `str()` makes of it.
   */
  datatype PyValue = PyBool(b: bool) | PyInt(i: int) | PyStr(s: string) | PyNone | PyOther(repr: string)

  /** `str(value)` */
  function Str(v: PyValue): string
  {
    match v
    case PyBool(b) => if b then "True" else "False"
    case PyInt(i) => Text.IntToString(i)
    case PyStr(s) => s
    case PyNone => "None"
    case PyOther(repr) => repr
  }

  /** `DEFAULT_CONFIG`, in insertion order. */
  const DEFAULT_CONFIG: seq<(string, string)> := [
    ("file_history_retention_days", "365"),
    ("max_file_versions", "10"),
    ("file_download_logging", "true"),
    ("file_view_logging", "true"),
    ("admin_history_access", "true"),
    ("user_history_access", "true"),
    ("history_export_limit", "1000"),
    ("auto_cleanup_history", "true")
  ]

  /** `_get_config_description` */
  function Description(key: string): string
  {
    match key
    case "file_history_retention_days" => "Number of days to keep file history records"
    case "max_file_versions" => "Maximum number of versions to keep for each file"
    case "file_download_logging" => "Enable logging of file download events"
    case "file_view_logging" => "Enable logging of file view events"
    case "admin_history_access" => "Allow administrators to view all file history"
    case "user_history_access" => "Allow users to view their own file history"
    case "history_export_limit" => "Maximum number of records to allow for export"
    case "auto_cleanup_history" => "Automatically cleanup old history records"
    case _ => "System configuration"
  }

  predicate IsBooleanText(value: string)
  {
    Text.Lower(value) == "true" || Text.Lower(value) == "false"
  }

  /**
   * `_get_config_type`: boolean text first, then all digits, then text in
   * braces, and string otherwise.
   */
  function GetConfigType(value: string): (t: ConfigType)
    ensures t == Boolean <==> IsBooleanText(value)
    ensures t == Number <==> !IsBooleanText(value) && Text.IsDigits(value)
    ensures t == JsonType <==> !IsBooleanText(value) && !Text.IsDigits(value)
                               && Text.StartsWith(value, "{") && Text.EndsWith(value, "}")
  {
    if IsBooleanText(value) then Boolean
    else if Text.IsDigits(value) then Number
    else if Text.StartsWith(value, "{") && Text.EndsWith(value, "}") then JsonType
    else StringType
  }

  /**
   * `_convert_config_value`: a boolean is true exactly for the text `true` in
   * any case; a number is what `int()` makes of the text, failing that what
   * `float()` makes of it, failing both the raw text; JSON is parsed, falling
   * back to the raw text; anything else is the raw text.
   */
  function ConvertConfigValue(value: string, t: ConfigType, parseJson: string -> Metadata.ParseOutcome): (r: ConfigValue)
    ensures t == Boolean ==> r == BoolValue(Text.Lower(value) == "true")
    ensures t == Number ==> (r.IntValue? <==> Text.ParseInt(value).Some?)
    ensures t == Number && r.IntValue? ==> r.i == Text.ParseInt(value).value
    ensures t == Number ==> (r.FloatValue? <==> Text.ParseInt(value).None? && Text.ParseDecimal(value).Some?)
    ensures t == Number && r.FloatValue? ==> r.x == Text.ParseDecimal(value).value
    ensures t == Number && Text.ParseInt(value).None? && Text.ParseDecimal(value).None? ==> r == StringValue(value)
    ensures t == JsonType ==> r.JsonValue? || r == StringValue(value)
    ensures t == StringType ==> r == StringValue(value)
  {
    match t
    case Boolean => BoolValue(Text.Lower(value) == "true")
    case Number =>
      (match Text.ParseInt(value)
       case Some(i) => IntValue(i)
       case None =>
         (match Text.ParseDecimal(value)
          case Some(x) => FloatValue(x)
          case None => StringValue(value)))
    case JsonType =>
      (match parseJson(value)
       case Parsed(j) => JsonValue(j)
       case _ => StringValue(value))
    case StringType => StringValue(value)
  }

  /** The value `get_config` gives back after `update_config` stored `str(v)`. */
  function ReadBack(v: PyValue, parseJson: string -> Metadata.ParseOutcome): ConfigValue
  {
    var s := Str(v);
    ConvertConfigValue(s, GetConfigType(s), parseJson)
  }

  /**
   * Updating with a boolean or a non-negative integer and reading the key
   * back gives the same value; a negative integer comes back as its text,
   * because `-5` is not all digits.
   */
  lemma {:induction false} UpdateReadBackRoundTrip(v: PyValue, parseJson: string -> Metadata.ParseOutcome)
    ensures v.PyBool? ==> ReadBack(v, parseJson) == BoolValue(v.b)
    ensures v.PyInt? && v.i >= 0 ==> ReadBack(v, parseJson) == IntValue(v.i)
    ensures v.PyInt? && v.i < 0 ==> ReadBack(v, parseJson) == StringValue(Text.IntToString(v.i))
  {
    match v
    case PyBool(b) =>
      if b { assert Text.Lower("True") == "true"; } else { assert Text.Lower("False") == "false"; }
    case PyInt(i) =>
      var s := Str(v);
      if i >= 0 {
        Text.NatToStringParses(i);
        NotBooleanText(s);
      } else {
        assert s[0] == '-';
        NotBooleanText(s);
        assert !Text.IsDigits(s);
        assert !Text.StartsWith(s, "{");
      }
    case _ =>
  }

  /**
   * A dictionary is stored as its `str()` text, which is typed `json`; it
   * reads back as what the JSON parser makes of that text, and as the text
   * itself when the parser refuses it, as it refuses the single quotes of
   * `{'a': 1}`.
   */
  lemma DictReadBack(repr: string, parseJson: string -> Metadata.ParseOutcome)
    requires Text.StartsWith(repr, "{") && Text.EndsWith(repr, "}")
    ensures GetConfigType(Str(PyOther(repr))) == JsonType
    ensures parseJson(repr).Parsed? ==> ReadBack(PyOther(repr), parseJson) == JsonValue(parseJson(repr).value)
    ensures !parseJson(repr).Parsed? ==> ReadBack(PyOther(repr), parseJson) == StringValue(repr)
  {
  }

  /**
   * A list is stored as its `str()` text, which is typed `string` because
   * only braces mark JSON: `[1, 2]` reads back as the text `[1, 2]`.
   */
  lemma ListReadBack(repr: string, parseJson: string -> Metadata.ParseOutcome)
    requires |repr| > 0 && repr[0] == '['
    ensures GetConfigType(Str(PyOther(repr))) == StringType
    ensures ReadBack(PyOther(repr), parseJson) == StringValue(repr)
  {
  }

  /**
   * A float is stored as its `str()` text, which is not all digits and so is
   * typed `string`: `1.5` reads back as the text `1.5`, not as a number.
   */
  lemma FloatReadBack(a: string, b: string, parseJson: string -> Metadata.ParseOutcome)
    requires Text.IsDigits(a) && Text.AllDigits(b)
    ensures GetConfigType(Str(PyOther(a + "." + b))) == StringType
    ensures ReadBack(PyOther(a + "." + b), parseJson) == StringValue(a + "." + b)
  {
    var s := a + "." + b;
    NotBooleanText(s);
    assert !Text.IsDigitChar(s[|a|]);
  }

  /**
   * A row typed `number` by `_get_config_type` holds ASCII digits, so it
   * always converts to the integer those digits spell: the float and text
   * fallbacks are reached only by rows whose type was set some other way.
   */
  lemma NumberTypedTextIsInt(value: string, parseJson: string -> Metadata.ParseOutcome)
    requires GetConfigType(value) == Number
    ensures ConvertConfigValue(value, Number, parseJson) == IntValue(Text.DigitsValue(value))
  {
    Text.ParseIntOfDigits(value);
  }

  /** A sign before the digits is honoured: `int("-5")` is -5 and `int("+3")` is 3. */
  lemma ConvertSignedNumber(s: string, n: string, parseJson: string -> Metadata.ParseOutcome)
    requires Text.IsDigits(n) && s != [] && (s[0] == '-' || s[0] == '+') && s[1..] == n
    ensures s[0] == '-' ==> ConvertConfigValue(s, Number, parseJson) == IntValue(-(Text.DigitsValue(n) as int))
    ensures s[0] == '+' ==> ConvertConfigValue(s, Number, parseJson) == IntValue(Text.DigitsValue(n))
  {
    Text.ParseIntOfSigned(s, n);
  }

  /** Whitespace around the digits is ignored: `int(" 12")` is 12. */
  lemma ConvertPaddedNumber(before: string, n: string, after: string, parseJson: string -> Metadata.ParseOutcome)
    requires Text.AllSpace(before) && Text.IsDigits(n) && Text.AllSpace(after)
    ensures ConvertConfigValue(before + n + after, Number, parseJson) == IntValue(Text.DigitsValue(n))
  {
    Text.ParseIntOfPadded(before, n, after);
  }

  /** Digits around one point are a float: `float("1.5")` is 1.5. */
  lemma ConvertDecimalNumber(s: string, a: string, b: string, parseJson: string -> Metadata.ParseOutcome)
    requires Text.IsDigits(a) && Text.AllDigits(b) && s == a + "." + b
    ensures ConvertConfigValue(s, Number, parseJson) == FloatValue(Text.PointValue(a, b))
  {
    Text.ParseDecimalOfPoint(a, b);
  }

  lemma NotBooleanText(s: string)
    requires |s| > 0 && (Text.IsDigitChar(s[0]) || s[0] == '-')
    ensures !IsBooleanText(s)
  {
    assert Text.Lower(s)[0] == s[0];
  }

  /** A fresh row for a default key. */
  function DefaultEntry(key: string, value: string): ConfigEntry
  {
    ConfigEntry(value, GetConfigType(value), Description(key), true)
  }

  /** The table after seeding `defaults` in order, adding only absent keys. */
  function SeedDefaults(m: map<string, ConfigEntry>, defaults: seq<(string, string)>): map<string, ConfigEntry>
    decreases |defaults|
  {
    if defaults == [] then m
    else
      var (k, v) := defaults[0];
      SeedDefaults(if k in m then m else m[k := DefaultEntry(k, v)], defaults[1..])
  }

  /** Seeding never overwrites an existing row. */
  lemma {:induction false} SeedKeepsExisting(m: map<string, ConfigEntry>, defaults: seq<(string, string)>)
    ensures forall k :: k in m ==> k in SeedDefaults(m, defaults) && SeedDefaults(m, defaults)[k] == m[k]
    decreases |defaults|
  {
    if defaults != [] {
      var (k, v) := defaults[0];
      SeedKeepsExisting(if k in m then m else m[k := DefaultEntry(k, v)], defaults[1..]);
    }
  }

  /**
   * After seeding, every default key is present, and a key that was absent
   * holds its first default value; no other key appears.
   */
  lemma {:induction false} SeedCovers(m: map<string, ConfigEntry>, defaults: seq<(string, string)>)
    ensures forall i :: 0 <= i < |defaults| ==> defaults[i].0 in SeedDefaults(m, defaults)
    ensures forall k :: k in SeedDefaults(m, defaults) ==> k in m || exists i :: 0 <= i < |defaults| && defaults[i].0 == k
    decreases |defaults|
  {
    if defaults != [] {
      var (k, v) := defaults[0];
      var m' := if k in m then m else m[k := DefaultEntry(k, v)];
      SeedCovers(m', defaults[1..]);
      SeedKeepsExisting(m', defaults[1..]);
      assert SeedDefaults(m, defaults) == SeedDefaults(m', defaults[1..]);
      forall k' | k' in SeedDefaults(m, defaults) && k' !in m
        ensures exists i :: 0 <= i < |defaults| && defaults[i].0 == k'
      {
        if k' != k {
          assert k' !in m' && k' in SeedDefaults(m', defaults[1..]);
          var i :| 0 <= i < |defaults[1..]| && defaults[1..][i].0 == k';
          assert defaults[i + 1].0 == k';
        } else {
          assert defaults[0].0 == k';
        }
      }
    }
  }

  /** Seeding a table that already holds every default key changes nothing. */
  lemma {:induction false} SeedNoop(m: map<string, ConfigEntry>, defaults: seq<(string, string)>)
    requires forall i :: 0 <= i < |defaults| ==> defaults[i].0 in m
    ensures SeedDefaults(m, defaults) == m
    decreases |defaults|
  {
    if defaults != [] {
      SeedNoop(m, defaults[1..]);
    }
  }

  /** `initialize_default_config` is idempotent. */
  lemma SeedIdempotent(m: map<string, ConfigEntry>, defaults: seq<(string, string)>)
    ensures SeedDefaults(SeedDefaults(m, defaults), defaults) == SeedDefaults(m, defaults)
  {
    SeedCovers(m, defaults);
    SeedNoop(SeedDefaults(m, defaults), defaults);
  }

  lemma SeedStep(m: map<string, ConfigEntry>, defaults: seq<(string, string)>, i: nat)
    requires i < |defaults|
    ensures SeedDefaults(m, defaults[..i + 1]) ==
      var s := SeedDefaults(m, defaults[..i]);
      if defaults[i].0 in s then s else s[defaults[i].0 := DefaultEntry(defaults[i].0, defaults[i].1)]
    decreases i
  {
    if i > 0 {
      var (k, v) := defaults[0];
      var m' := if k in m then m else m[k := DefaultEntry(k, v)];
      assert defaults[..i + 1][1..] == defaults[1..][..i];
      assert defaults[..i][1..] == defaults[1..][..i - 1];
      SeedStep(m', defaults[1..], i - 1);
    }
  }

  /** The `(success, status)` pair `update_config` returns for a table. */
  function UpdateStatus(entries: map<string, ConfigEntry>, key: string, fault: bool): (bool, int)
  {
    if fault then (false, 500)
    else if key !in entries then (false, 404)
    else if !entries[key].editable then (false, 403)
    else (true, 200)
  }

  /** The `system_config` table. */
  class ConfigTable {
    var entries: map<string, ConfigEntry>

    constructor ()
      ensures entries == map[]
    {
      entries := map[];
    }

    /**
     * `get_config`: 404 for a missing key, otherwise the converted value with
     * 200; a database error gives 500.
     */
    method GetConfig(key: string, parseJson: string -> Metadata.ParseOutcome, fault: bool)
      returns (value: Option<ConfigValue>, code: int)
      ensures fault ==> value == None && code == 500
      ensures !fault && key !in entries ==> value == None && code == 404
      ensures !fault && key in entries ==>
        code == 200 && value == Some(ConvertConfigValue(entries[key].value, entries[key].configType, parseJson))
    {
      if fault { return None, 500; }
      if key !in entries { return None, 404; }
      var e := entries[key];
      return Some(ConvertConfigValue(e.value, e.configType, parseJson)), 200;
    }

    /**
     * `get_all_config`: every key with its converted value, stored type,
     * description and editable flag, or 500 on a database error.
     */
    method GetAllConfig(parseJson: string -> Metadata.ParseOutcome, fault: bool)
      returns (all: Option<map<string, ConfigView>>, code: int)
      ensures fault <==> code == 500
      ensures fault ==> all == None
      ensures !fault ==> code == 200 && all.Some? && all.value.Keys == entries.Keys
      ensures !fault ==> forall k :: k in entries ==>
        all.value[k].value == ConvertConfigValue(entries[k].value, entries[k].configType, parseJson) &&
        all.value[k].configType == entries[k].configType &&
        all.value[k].description == entries[k].description &&
        all.value[k].isEditable == entries[k].editable
    {
      if fault { return None, 500; }
      var m := map k | k in entries ::
        ConfigView(ConvertConfigValue(entries[k].value, entries[k].configType, parseJson),
                   entries[k].configType, entries[k].description, entries[k].editable);
      return Some(m), 200;
    }

    /**
     * `update_config`: 404 for a missing key and 403 for a read-only key, with
     * nothing changed; otherwise the key stores `str(value)` with its
     * re-inferred type and no other key changes.  A database error rolls back
     * and gives 500.
     */
    method UpdateConfig(key: string, value: PyValue, fault: bool) returns (ok: bool, code: int)
      modifies this
      ensures (ok, code) == UpdateStatus(old(entries), key, fault)
      ensures fault ==> !ok && code == 500 && entries == old(entries)
      ensures !fault && key !in old(entries) ==> !ok && code == 404 && entries == old(entries)
      ensures !fault && key in old(entries) && !old(entries)[key].editable ==>
        !ok && code == 403 && entries == old(entries)
      ensures !fault && key in old(entries) && old(entries)[key].editable ==>
        ok && code == 200 &&
        entries == old(entries)[key := old(entries)[key].(value := Str(value), configType := GetConfigType(Str(value)))]
    {
      if fault { return false, 500; }
      if key !in entries { return false, 404; }
      if !entries[key].editable { return false, 403; }
      var s := Str(value);
      entries := entries[key := entries[key].(value := s, configType := GetConfigType(s))];
      return true, 200;
    }

    /**
     * `initialize_default_config`: walks `DEFAULT_CONFIG` in order and adds
     * each key that is absent, as an editable row with its inferred type;
     * existing rows are never overwritten.  A database error rolls back.
     */
    method InitializeDefaultConfig(fault: bool) returns (ok: bool)
      modifies this
      ensures ok == !fault
      ensures fault ==> entries == old(entries)
      ensures !fault ==> entries == SeedDefaults(old(entries), DEFAULT_CONFIG)
    {
      if fault { return false; }
      var i := 0;
      while i < |DEFAULT_CONFIG|
        invariant 0 <= i <= |DEFAULT_CONFIG|
        invariant entries == SeedDefaults(old(entries), DEFAULT_CONFIG[..i])
      {
        SeedStep(old(entries), DEFAULT_CONFIG, i);
        var (k, v) := DEFAULT_CONFIG[i];
        if k !in entries {
          entries := entries[k := DefaultEntry(k, v)];
        }
        i := i + 1;
      }
      assert DEFAULT_CONFIG[..i] == DEFAULT_CONFIG;
      return true;
    }

    /** `ensure_config_initialized`: seeds the defaults only into an empty table. */
    method EnsureConfigInitialized(fault: bool) returns (ok: bool)
      modifies this
      ensures ok == !fault
      ensures fault || old(entries) != map[] ==> entries == old(entries)
      ensures !fault && old(entries) == map[] ==> entries == SeedDefaults(map[], DEFAULT_CONFIG)
    {
      if fault { return false; }
      if entries == map[] {
        ok := InitializeDefaultConfig(false);
      } else {
        ok := true;
      }
    }
  }
}
