/**
 * `FileHistoryService`: the log of actions taken on uploaded files, with
 * per-action logging switches, access rules for reading the log, retention
 * cleanup and statistics.  The configuration answers the service consults are
 * inputs; `now` is the clock in seconds.
 */
module FileHistory {
  import opened Wrappers
  import Metadata
  import ConfigService
  import Queries

  const OK := 200
  const CREATED := 201
  const FORBIDDEN := 403
  const SERVER_ERROR := 500

  const SECONDS_PER_DAY: nat := 86400

  /** Retention used when the retention setting cannot be read. */
  const DEFAULT_RETENTION_DAYS := 365

  /** A row of `file_history`. */
  datatype HistoryRecord = HistoryRecord(
    id: nat,
    fileUploadId: int,
    s3Key: string,
    action: string,
    actionBy: int,
    details: map<string, Metadata.Json>,
    ipAddress: Option<string>,
    userAgent: Option<string>,
    createdAt: nat)

  /** What `get_config` answered for one key: the converted value (none on 404 or 500) and the status. */
  datatype ConfigAnswer = ConfigAnswer(value: Option<ConfigService.ConfigValue>, code: int)

  /** `if not value`: a missing value and a falsy one both count as off. */
  predicate Enabled(a: ConfigAnswer)
  {
    a.value.Some? && a.value.value.Truthy()
  }

  /** The actions whose logging has a switch of its own. */
  predicate IsGatedAction(action: string)
  {
    action == "download" || action == "view"
  }

  /** The setting that switches logging of `action` on or off. */
  function LoggingKey(action: string): string
  {
    "file_" + action + "_logging"
  }

  /** A download or view whose switch was read successfully and is off is not recorded. */
  predicate LoggingSwitchedOff(action: string, logging: ConfigAnswer)
  {
    IsGatedAction(action) && logging.code == OK && !Enabled(logging)
  }

  /**
   * Both switches are default settings whose default text is `true`, and that
   * text reads back as a truthy value: with the defaults every action is
   * recorded.
   */
  lemma DefaultsLogEverything(action: string, parseJson: string -> Metadata.ParseOutcome)
    requires IsGatedAction(action)
    ensures (LoggingKey(action), "true") in ConfigService.DEFAULT_CONFIG
    ensures var v := ConfigService.ConvertConfigValue("true", ConfigService.GetConfigType("true"), parseJson);
      !LoggingSwitchedOff(action, ConfigAnswer(Some(v), OK))
  {
    if action == "download" {
      assert LoggingKey(action) == "file_download_logging";
      assert ConfigService.DEFAULT_CONFIG[2] == (LoggingKey(action), "true");
    } else {
      assert LoggingKey(action) == "file_view_logging";
      assert ConfigService.DEFAULT_CONFIG[3] == (LoggingKey(action), "true");
    }
    assert ConfigService.IsBooleanText("true");
  }

  /** The `created_at` column, the ordering key of every history query. */
  function CreatedAt(r: HistoryRecord): int
  {
    r.createdAt
  }

  /** The `id` column. */
  function Id(r: HistoryRecord): int
  {
    r.id
  }

  // ------------------------------------------------------------ reading the log

  /**
   * The `action_by` restriction a reader of a file's history gets: a
   * non-admin with a (truthy) user id, while `admin_history_access` is off,
   * sees only their own actions.
   */
  function OwnerFilter(userId: Option<int>, isAdmin: bool, adminAccess: ConfigAnswer): (owner: Option<int>)
    ensures owner.Some? <==> !isAdmin && userId.Some? && userId.value != 0 && !Enabled(adminAccess)
    ensures owner.Some? ==> owner == userId
  {
    if !isAdmin && userId.Some? && userId.value != 0 && !Enabled(adminAccess) then userId else None
  }

  /** The rows of one file's history a reader with restriction `owner` may see. */
  function OnFile(s3Key: string, owner: Option<int>): HistoryRecord -> bool
  {
    (r: HistoryRecord) => r.s3Key == s3Key && (owner.None? || r.actionBy == owner.value)
  }

  /** The rows of one user's actions. */
  function ByUser(userId: int): HistoryRecord -> bool
  {
    (r: HistoryRecord) => r.actionBy == userId
  }

  /** One entry of `get_file_history`'s list. */
  datatype FileHistoryEntry = FileHistoryEntry(
    id: nat, action: string, actionBy: int, details: map<string, Metadata.Json>,
    ipAddress: Option<string>, userAgent: Option<string>, createdAt: string)

  /** One entry of `get_user_file_history`'s list. */
  datatype UserHistoryEntry = UserHistoryEntry(
    id: nat, s3Key: string, action: string, details: map<string, Metadata.Json>,
    ipAddress: Option<string>, createdAt: string)

  function FileEntry(r: HistoryRecord, iso: nat -> string): FileHistoryEntry
  {
    FileHistoryEntry(r.id, r.action, r.actionBy, r.details, r.ipAddress, r.userAgent, iso(r.createdAt))
  }

  function UserEntry(r: HistoryRecord, iso: nat -> string): UserHistoryEntry
  {
    UserHistoryEntry(r.id, r.s3Key, r.action, r.details, r.ipAddress, iso(r.createdAt))
  }

  /** The loop of `get_file_history` building one entry per row, in order. */
  method FileEntries(rows: seq<HistoryRecord>, iso: nat -> string) returns (entries: seq<FileHistoryEntry>)
    ensures |entries| == |rows|
    ensures forall i :: 0 <= i < |rows| ==> entries[i] == FileEntry(rows[i], iso)
  {
    entries := [];
    for i := 0 to |rows|
      invariant |entries| == i
      invariant forall k :: 0 <= k < i ==> entries[k] == FileEntry(rows[k], iso)
    {
      entries := entries + [FileEntry(rows[i], iso)];
    }
  }

  /** The loop of `get_user_file_history` building one entry per row, in order. */
  method UserEntries(rows: seq<HistoryRecord>, iso: nat -> string) returns (entries: seq<UserHistoryEntry>)
    ensures |entries| == |rows|
    ensures forall i :: 0 <= i < |rows| ==> entries[i] == UserEntry(rows[i], iso)
  {
    entries := [];
    for i := 0 to |rows|
      invariant |entries| == i
      invariant forall k :: 0 <= k < i ==> entries[k] == UserEntry(rows[k], iso)
    {
      entries := entries + [UserEntry(rows[i], iso)];
    }
  }

  /**
   * What a restricted reader gets is only their own actions on that file,
   * at most `limit` of them, newest first; an unrestricted reader's first
   * page, when large enough, holds every action on the file once.
   */
  lemma FileHistoryPage(records: seq<HistoryRecord>, s3Key: string, owner: Option<int>, offset: nat, limit: nat)
    ensures var rows := Queries.Page(records, OnFile(s3Key, owner), CreatedAt, offset, limit);
      |rows| <= limit && Queries.NewestFirst(rows, CreatedAt) &&
      forall r :: r in rows ==> r in records && r.s3Key == s3Key && (owner.Some? ==> r.actionBy == owner.value)
    ensures var all := Queries.Where(records, OnFile(s3Key, owner));
      offset == 0 && |all| <= limit ==>
      multiset(Queries.Page(records, OnFile(s3Key, owner), CreatedAt, offset, limit)) == multiset(all)
    ensures owner.None? ==> forall r :: r in Queries.Where(records, OnFile(s3Key, owner)) <==> r in records && r.s3Key == s3Key
  {
    Queries.PageSound(records, OnFile(s3Key, owner), CreatedAt, offset, limit);
    if offset == 0 && |Queries.Where(records, OnFile(s3Key, owner))| <= limit {
      Queries.PageComplete(records, OnFile(s3Key, owner), CreatedAt, limit);
    }
  }

  /** `get_user_file_history` lists only that user's actions, at most `limit`, newest first. */
  lemma UserHistoryPage(records: seq<HistoryRecord>, userId: int, offset: nat, limit: nat)
    ensures var rows := Queries.Page(records, ByUser(userId), CreatedAt, offset, limit);
      |rows| <= limit && Queries.NewestFirst(rows, CreatedAt) &&
      forall r :: r in rows ==> r in records && r.actionBy == userId
  {
    Queries.PageSound(records, ByUser(userId), CreatedAt, offset, limit);
  }

  // ------------------------------------------------------------ cleanup and statistics

  /**
   * The retention in days `cleanup_old_history` works with: 365 when the
   * setting cannot be read; the number (a boolean counts as 0 or 1) when it
   * can; none when the value is not a whole number, where the date arithmetic
   * fails. A float retention is also sent to none: `timedelta` would accept
   * it, but the model keeps whole days (a `number` row whose type comes from
   * `_get_config_type` is all digits and never reads as a float).
   */
  function RetentionDays(retention: ConfigAnswer): (days: Option<int>)
    ensures retention.code != OK ==> days == Some(DEFAULT_RETENTION_DAYS)
    ensures retention.code == OK && retention.value.Some? && retention.value.value.IntValue? ==>
      days == Some(retention.value.value.i)
    ensures retention.code == OK && (retention.value.None? || retention.value.value.StringValue?) ==> days.None?
  {
    if retention.code != OK then Some(DEFAULT_RETENTION_DAYS)
    else if retention.value.None? then None
    else
      var v := retention.value.value;
      if v.IntValue? then Some(v.i)
      else if v.BoolValue? then Some(if v.b then 1 else 0)
      else if v.JsonValue? && v.j.JNumber? then Some(v.j.n)
      else if v.JsonValue? && v.j.JBool? then Some(if v.j.b then 1 else 0)
      else None
  }

  /** `now - timedelta(days=days)` in seconds. */
  function Cutoff(now: nat, days: int): int
  {
    now - days * SECONDS_PER_DAY
  }

  /** The largest day count `timedelta` accepts. */
  const MAX_TIMEDELTA_DAYS := 999999999
  /** `datetime.min` and `datetime.max` (whole seconds), in seconds since the epoch. */
  const MIN_TIMESTAMP := -62135596800
  const MAX_TIMESTAMP := 253402300799

  /**
   * `now - timedelta(days=days)` can be computed: the day count is within
   * what `timedelta` takes and the result is a representable datetime;
   * otherwise Python raises `OverflowError`.
   */
  predicate CutoffInRange(now: nat, days: int)
  {
    -MAX_TIMEDELTA_DAYS <= days <= MAX_TIMEDELTA_DAYS &&
    MIN_TIMESTAMP <= Cutoff(now, days) <= MAX_TIMESTAMP
  }

  /** `created_at < cutoff` */
  function OlderThan(cutoff: int): HistoryRecord -> bool
  {
    (r: HistoryRecord) => r.createdAt < cutoff
  }

  /** `created_at >= cutoff` */
  function NotOlderThan(cutoff: int): HistoryRecord -> bool
  {
    (r: HistoryRecord) => r.createdAt >= cutoff
  }

  /**
   * The cleanup deletes exactly the records created before the cutoff: those
   * kept are the others, and the two counts add up to the table's size.
   */
  lemma CleanupSplitsTable(records: seq<HistoryRecord>, cutoff: int)
    ensures |Queries.Where(records, OlderThan(cutoff))| + |Queries.Where(records, NotOlderThan(cutoff))| == |records|
    ensures forall r :: r in Queries.Where(records, NotOlderThan(cutoff)) <==> r in records && r.createdAt >= cutoff
    ensures forall r :: r in Queries.Where(records, OlderThan(cutoff)) <==> r in records && r.createdAt < cutoff
  {
    Queries.WherePartition(records, OlderThan(cutoff), NotOlderThan(cutoff));
  }

  /** The actions column, row by row. */
  function Actions(records: seq<HistoryRecord>): (a: seq<string>)
    ensures |a| == |records|
    ensures forall i :: 0 <= i < |records| ==> a[i] == records[i].action
  {
    seq(|records|, i requires 0 <= i < |records| => records[i].action)
  }

  /** `action = a` */
  function HasAction(a: string): HistoryRecord -> bool
  {
    (r: HistoryRecord) => r.action == a
  }

  /** The number of rows holding an action is the number of rows `WHERE action = a` selects. */
  lemma {:induction false} ActionCountIsRows(records: seq<HistoryRecord>, a: string)
    ensures multiset(Actions(records))[a] == |Queries.Where(records, HasAction(a))|
  {
    if records != [] {
      ActionCountIsRows(records[1..], a);
      assert Actions(records) == [records[0].action] + Actions(records[1..]);
    }
  }

  /** The statistics `get_history_stats` reports (without its top-users list). */
  datatype HistoryStats = HistoryStats(totalActions: nat, actionsByType: seq<(string, nat)>, recentActions: nat, periodDays: int)

  /** The history table with its `id` sequence. */
  class HistoryLog {
    var records: seq<HistoryRecord>
    var nextId: nat

    /** Ids are issued in ascending order and none reaches the next one. */
    predicate Valid()
      reads this
    {
      Queries.Ascending(records, Id) && forall r :: r in records ==> r.id < nextId
    }

    constructor()
      ensures records == [] && nextId == 1 && Valid()
    {
      records := [];
      nextId := 1;
    }

    /**
     * `log_file_action`: a download or view whose switch is off returns
     * `(True, 200)` and writes nothing; every other action, including one
     * whose switch could not be read, is appended with empty details when
     * none are given and gives 201; a failed commit rolls back and gives 500.
     */
    method LogFileAction(fileUploadId: int, s3Key: string, action: string, actionBy: int,
                         details: Option<map<string, Metadata.Json>>, ipAddress: Option<string>,
                         userAgent: Option<string>, logging: ConfigAnswer, fault: bool, now: nat)
      returns (ok: bool, code: int)
      requires Valid()
      modifies this
      ensures Valid()
      ensures LoggingSwitchedOff(action, logging) ==>
        ok && code == OK && records == old(records) && nextId == old(nextId)
      ensures !LoggingSwitchedOff(action, logging) && fault ==>
        !ok && code == SERVER_ERROR && records == old(records) && nextId == old(nextId)
      ensures !LoggingSwitchedOff(action, logging) && !fault ==>
        ok && code == CREATED && nextId == old(nextId) + 1 &&
        records == old(records) + [HistoryRecord(old(nextId), fileUploadId, s3Key, action, actionBy,
                                                 details.GetOr(map[]), ipAddress, userAgent, now)]
    {
      if IsGatedAction(action) && logging.code == OK && !Enabled(logging) {
        return true, OK;
      }
      if fault {
        return false, SERVER_ERROR;
      }
      var row := HistoryRecord(nextId, fileUploadId, s3Key, action, actionBy, details.GetOr(map[]), ipAddress, userAgent, now);
      records := records + [row];
      nextId := nextId + 1;
      return true, CREATED;
    }

    /**
     * `get_file_history`: a non-admin is refused with 403 unless
     * `user_history_access` is on; otherwise the file's actions, restricted
     * by `OwnerFilter`, newest first, after `offset` and at most `limit` of
     * them.  A database error, and a negative limit or offset the database
     * rejects, give 500.
     */
    method GetFileHistory(s3Key: string, userId: Option<int>, isAdmin: bool, limit: int, offset: int,
                          userAccess: ConfigAnswer, adminAccess: ConfigAnswer, fault: bool, iso: nat -> string)
      returns (entries: Option<seq<FileHistoryEntry>>, code: int)
      ensures !isAdmin && !Enabled(userAccess) ==> entries.None? && code == FORBIDDEN
      ensures (isAdmin || Enabled(userAccess)) && (fault || limit < 0 || offset < 0) ==>
        entries.None? && code == SERVER_ERROR
      ensures entries.Some? <==> code == OK
      ensures code == OK ==> (isAdmin || Enabled(userAccess)) && limit >= 0 && offset >= 0
      ensures code == OK ==>
        var rows := Queries.Page(records, OnFile(s3Key, OwnerFilter(userId, isAdmin, adminAccess)), CreatedAt, offset, limit);
        |entries.value| == |rows| && forall i :: 0 <= i < |rows| ==> entries.value[i] == FileEntry(rows[i], iso)
    {
      if !isAdmin && !Enabled(userAccess) {
        return None, FORBIDDEN;
      }
      if fault || limit < 0 || offset < 0 {
        return None, SERVER_ERROR;
      }
      var owner := OwnerFilter(userId, isAdmin, adminAccess);
      var rows := Queries.Page(records, OnFile(s3Key, owner), CreatedAt, offset, limit);
      var list := FileEntries(rows, iso);
      return Some(list), OK;
    }

    /**
     * `get_user_file_history`: the user's actions on every file, newest
     * first, after `offset` and at most `limit`; 500 on a database error.
     */
    method GetUserFileHistory(userId: int, limit: int, offset: int, fault: bool, iso: nat -> string)
      returns (entries: Option<seq<UserHistoryEntry>>, code: int)
      ensures fault || limit < 0 || offset < 0 <==> entries.None? && code == SERVER_ERROR
      ensures entries.Some? <==> code == OK
      ensures code == OK ==> limit >= 0 && offset >= 0
      ensures code == OK ==>
        var rows := Queries.Page(records, ByUser(userId), CreatedAt, offset, limit);
        |entries.value| == |rows| && forall i :: 0 <= i < |rows| ==> entries.value[i] == UserEntry(rows[i], iso)
    {
      if fault || limit < 0 || offset < 0 {
        return None, SERVER_ERROR;
      }
      var rows := Queries.Page(records, ByUser(userId), CreatedAt, offset, limit);
      var list := UserEntries(rows, iso);
      return Some(list), OK;
    }

    /**
     * `cleanup_old_history`: with `auto_cleanup_history` off nothing is
     * deleted and the answer is `(0, 200)`; a retention that is not a number,
     * one whose cutoff date overflows, or a failed commit gives `(0, 500)`
     * with nothing deleted; otherwise the
     * records created before `now` minus the retention are deleted and their
     * number returned.
     */
    method CleanupOldHistory(retention: ConfigAnswer, autoCleanup: ConfigAnswer, now: nat, fault: bool)
      returns (deleted: nat, code: int)
      requires Valid()
      modifies this
      ensures Valid() && nextId == old(nextId)
      ensures !Enabled(autoCleanup) ==> deleted == 0 && code == OK && records == old(records)
      ensures Enabled(autoCleanup) && (RetentionDays(retention).None? || fault) ==>
        deleted == 0 && code == SERVER_ERROR && records == old(records)
      ensures Enabled(autoCleanup) && RetentionDays(retention).Some? && !CutoffInRange(now, RetentionDays(retention).value) ==>
        deleted == 0 && code == SERVER_ERROR && records == old(records)
      ensures Enabled(autoCleanup) && RetentionDays(retention).Some? && CutoffInRange(now, RetentionDays(retention).value) && !fault ==>
        var cutoff := Cutoff(now, RetentionDays(retention).value);
        code == OK && records == Queries.Where(old(records), NotOlderThan(cutoff)) &&
        deleted == |Queries.Where(old(records), OlderThan(cutoff))|
    {
      var days := RetentionDays(retention);
      if !Enabled(autoCleanup) {
        return 0, OK;
      }
      if days.None? || !CutoffInRange(now, days.value) || fault {
        return 0, SERVER_ERROR;
      }
      var cutoff := Cutoff(now, days.value);
      deleted := |Queries.Where(records, OlderThan(cutoff))|;
      Queries.WhereKeepsAscending(records, NotOlderThan(cutoff), Id);
      records := Queries.Where(records, NotOlderThan(cutoff));
      code := OK;
    }

    /**
     * `get_history_stats`: the number of actions, the count per action type,
     * which adds up to that number and counts each type's rows exactly, and
     * the number of actions in the last `days` days; 500 on a database error
     * or when `days` puts the start of that period out of datetime's range.
     */
    method GetHistoryStats(days: int, now: nat, fault: bool) returns (stats: Option<HistoryStats>, code: int)
      ensures fault || !CutoffInRange(now, days) ==> stats.None? && code == SERVER_ERROR
      ensures !fault && CutoffInRange(now, days) ==> stats.Some? && code == OK
      ensures stats.Some? ==>
        var s := stats.value;
        s.totalActions == |records| && s.periodDays == days &&
        Queries.Total(s.actionsByType) == s.totalActions &&
        Queries.DistinctKeys(s.actionsByType) &&
        (forall a :: Queries.CountFor(s.actionsByType, a) == |Queries.Where(records, HasAction(a))|) &&
        s.recentActions == |Queries.Where(records, NotOlderThan(Cutoff(now, days)))|
    {
      if fault || !CutoffInRange(now, days) {
        return None, SERVER_ERROR;
      }
      var byType := Queries.GroupCount(Actions(records));
      Queries.GroupCountIsExact(Actions(records));
      forall a ensures Queries.CountFor(byType, a) == |Queries.Where(records, HasAction(a))| {
        ActionCountIsRows(records, a);
      }
      var recent := |Queries.Where(records, NotOlderThan(Cutoff(now, days)))|;
      return Some(HistoryStats(|records|, byType, recent, days)), OK;
    }
  }
}
