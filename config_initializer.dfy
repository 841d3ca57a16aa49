/**
 * `ConfigInitializer`: the twelve built-in system settings, written into an
 * empty `system_config` table, and the reset that rewrites them.
 */
module ConfigInitializer {
  import opened ConfigService

  /** One seeded row: key, value, declared type, description. */
  datatype Seed = Seed(key: string, value: string, configType: ConfigType, description: string)

  const ALLOWED_FILE_TYPES: string := "pdf" + ",doc,docx,xls,xlsx,ppt,pptx,txt,jpg,jpeg,png,gif"

  /** The default rows, in the order they are added. */
  const SYSTEM_DEFAULTS: seq<Seed> := [
    Seed("file_history_retention_days", "365", Number, "Number of days to keep file history records"),
    Seed("max_file_versions", "10", Number, "Maximum number of versions to keep for each file"),
    Seed("file_download_logging", "true", Boolean, "Enable logging of file download events"),
    Seed("file_view_logging", "true", Boolean, "Enable logging of file view events"),
    Seed("admin_history_access", "true", Boolean, "Allow administrators to view all file history"),
    Seed("user_history_access", "true", Boolean, "Allow users to view their own file history"),
    Seed("history_export_limit", "1000", Number, "Maximum number of records to allow for export"),
    Seed("auto_cleanup_history", "true", Boolean, "Automatically cleanup old history records"),
    Seed("max_file_size_mb", "100", Number, "Maximum file size allowed for upload in MB"),
    Seed("allowed_file_types", ALLOWED_FILE_TYPES, StringType,
         "Comma-separated list of allowed file extensions"),
    Seed("session_timeout_minutes", "60", Number, "User session timeout in minutes"),
    Seed("max_login_attempts", "5", Number, "Maximum failed login attempts before lockout")
  ]

  function Row(s: Seed): ConfigEntry
  {
    ConfigEntry(s.value, s.configType, s.description, true)
  }

  /** The table holding exactly `seeds`, a later row winning on a repeated key. */
  function RowsOf(seeds: seq<Seed>): (m: map<string, ConfigEntry>)
    ensures forall k :: k in m <==> exists i :: 0 <= i < |seeds| && seeds[i].key == k
  {
    if seeds == [] then map[]
    else
      var m := RowsOf(seeds[..|seeds| - 1]);
      var last := seeds[|seeds| - 1];
      assert forall i :: 0 <= i < |seeds| - 1 ==> seeds[..|seeds| - 1][i] == seeds[i];
      m[last.key := Row(last)]
  }

  /** The table after a successful first initialisation. */
  function DefaultTable(): map<string, ConfigEntry>
  {
    RowsOf(SYSTEM_DEFAULTS)
  }

  /** Each declared type is the type the service infers from the value. */
  lemma DeclaredTypesAreInferred()
    ensures forall i :: 0 <= i < |SYSTEM_DEFAULTS| ==>
      SYSTEM_DEFAULTS[i].configType == GetConfigType(SYSTEM_DEFAULTS[i].value)
  {
    NumberText("365");
    NumberText("10");
    NumberText("1000");
    NumberText("100");
    NumberText("60");
    NumberText("5");
    TrueText();
    ListText(ALLOWED_FILE_TYPES);
  }

  lemma NumberText(v: string)
    requires |v| > 0 && forall i :: 0 <= i < |v| ==> Text.IsDigitChar(v[i])
    ensures GetConfigType(v) == Number
  {
    assert Text.IsDigits(v);
    NotBooleanText(v);
  }

  lemma TrueText()
    ensures GetConfigType("true") == Boolean
  {
    assert Text.Lower("true") == "true";
  }

  lemma ListText(v: string)
    requires |v| > 0 && v[0] == 'p'
    ensures GetConfigType(v) == StringType
  {
    assert Text.Lower(v)[0] == 'p';
    assert !Text.IsDigitChar(v[0]);
    assert v[0] != '{';
  }

  /** The keys of the twelve rows are pairwise distinct. */
  lemma DefaultKeysDistinct()
    ensures forall i, j :: 0 <= i < j < |SYSTEM_DEFAULTS| ==> SYSTEM_DEFAULTS[i].key != SYSTEM_DEFAULTS[j].key
  {
  }

  /**
   * The initializer's rows are a superset of the service's `DEFAULT_CONFIG`,
   * with the same value, type and description for every shared key.
   */
  lemma DefaultsAgreeWithService()
    ensures forall i :: 0 <= i < |DEFAULT_CONFIG| ==>
      SYSTEM_DEFAULTS[i].key == DEFAULT_CONFIG[i].0 &&
      Row(SYSTEM_DEFAULTS[i]) == DefaultEntry(DEFAULT_CONFIG[i].0, DEFAULT_CONFIG[i].1)
  {
    forall i | 0 <= i < |DEFAULT_CONFIG|
      ensures SYSTEM_DEFAULTS[i].key == DEFAULT_CONFIG[i].0 &&
              Row(SYSTEM_DEFAULTS[i]) == DefaultEntry(DEFAULT_CONFIG[i].0, DEFAULT_CONFIG[i].1)
    {
      AgreesAt(i);
    }
  }

  lemma AgreesAt(i: nat)
    requires i < |DEFAULT_CONFIG|
    ensures SYSTEM_DEFAULTS[i].key == DEFAULT_CONFIG[i].0
    ensures Row(SYSTEM_DEFAULTS[i]) == DefaultEntry(DEFAULT_CONFIG[i].0, DEFAULT_CONFIG[i].1)
  {
    var s := SYSTEM_DEFAULTS[i];
    if i == 0 { NumberText("365"); }
    else if i == 1 { NumberText("10"); }
    else if i == 6 { NumberText("1000"); }
    else { TrueText(); }
    assert s.key == DEFAULT_CONFIG[i].0 && s.value == DEFAULT_CONFIG[i].1;
    assert Description(s.key) == s.description;
  }

  /**
   * `initialize_system_config`: a table that already has rows is left alone;
   * an empty one receives the twelve default rows.  A database error rolls
   * back and reports failure.
   */
  method InitializeSystemConfig(table: ConfigTable, fault: bool) returns (ok: bool)
    modifies table
    ensures ok == !fault
    ensures fault || old(table.entries) != map[] ==> table.entries == old(table.entries)
    ensures !fault && old(table.entries) == map[] ==> table.entries == DefaultTable()
  {
    if fault { return false; }
    if table.entries != map[] { return true; }
    var i := 0;
    while i < |SYSTEM_DEFAULTS|
      invariant 0 <= i <= |SYSTEM_DEFAULTS|
      invariant table.entries == RowsOf(SYSTEM_DEFAULTS[..i])
    {
      var s := SYSTEM_DEFAULTS[i];
      assert SYSTEM_DEFAULTS[..i + 1][..i] == SYSTEM_DEFAULTS[..i];
      table.entries := table.entries[s.key := Row(s)];
      i := i + 1;
    }
    assert SYSTEM_DEFAULTS[..i] == SYSTEM_DEFAULTS;
    return true;
  }

  /**
   * `reset_to_defaults`: deletes every row and initialises again, so the
   * table ends up holding exactly the default rows whatever it held before.
   * `deleteRaised` is the outcome of executing the raw `DELETE` text, which
   * the session may refuse because it is not wrapped in `text()`; `fault` is
   * a database error during the initialisation, whose rollback also undoes
   * the delete.
   */
  method ResetToDefaults(table: ConfigTable, deleteRaised: bool, fault: bool) returns (ok: bool)
    modifies table
    ensures ok == (!deleteRaised && !fault)
    ensures !ok ==> table.entries == old(table.entries)
    ensures ok ==> table.entries == DefaultTable()
  {
    if deleteRaised { return false; }
    var prior := table.entries;
    table.entries := map[];
    ok := InitializeSystemConfig(table, fault);
    if !ok {
      table.entries := prior;
    }
  }

  /** After a reset every service default key is present with its default value. */
  lemma ResetCoversServiceDefaults()
    ensures forall i :: 0 <= i < |DEFAULT_CONFIG| ==>
      DEFAULT_CONFIG[i].0 in DefaultTable() && DefaultTable()[DEFAULT_CONFIG[i].0].value == DEFAULT_CONFIG[i].1
  {
    DefaultsAgreeWithService();
    forall i | 0 <= i < |DEFAULT_CONFIG|
      ensures DEFAULT_CONFIG[i].0 in DefaultTable() && DefaultTable()[DEFAULT_CONFIG[i].0].value == DEFAULT_CONFIG[i].1
    {
      RowsOfLookup(SYSTEM_DEFAULTS, i);
    }
  }

  /** With distinct keys, the row for the key of seed `i` is that seed's row. */
  lemma {:induction false} RowsOfLookup(seeds: seq<Seed>, i: nat)
    requires i < |seeds|
    requires forall a, b :: 0 <= a < b < |seeds| ==> seeds[a].key != seeds[b].key
    ensures seeds[i].key in RowsOf(seeds) && RowsOf(seeds)[seeds[i].key] == Row(seeds[i])
    decreases |seeds|
  {
    if i < |seeds| - 1 {
      var init := seeds[..|seeds| - 1];
      assert init[i] == seeds[i];
      RowsOfLookup(init, i);
    }
  }
}
