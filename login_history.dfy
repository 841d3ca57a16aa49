/**
 * `LoginHistoryService`: the log of login attempts, written once per attempt
 * and queried for counts, the last successful login and recent failures.
 * Times are seconds; `now` is an input.
 */
module LoginHistory {
  import opened Wrappers
  import Queries

  const OK := 200
  const SERVER_ERROR := 500

  const SECONDS_PER_HOUR: nat := 3600

  const SUCCESS := "success"
  const FAILED := "failed"

  /** A row of `login_history`. */
  datatype LoginRecord = LoginRecord(
    id: nat,
    userId: int,
    loginTime: nat,
    ipAddress: Option<string>,
    userAgent: Option<string>,
    loginStatus: string,
    failureReason: Option<string>)

  /** The ordering key of every login query. */
  function LoginTime(r: LoginRecord): int
  {
    r.loginTime
  }

  /** `user_id = u` */
  function OfUser(u: int): LoginRecord -> bool
  {
    (r: LoginRecord) => r.userId == u
  }

  /** `user_id = u AND login_status = status` */
  function WithStatus(u: int, status: string): LoginRecord -> bool
  {
    (r: LoginRecord) => r.userId == u && r.loginStatus == status
  }

  /** `user_id = u AND login_status = 'failed' AND login_time >= threshold` */
  function FailedSince(u: int, threshold: int): LoginRecord -> bool
  {
    (r: LoginRecord) => r.userId == u && r.loginStatus == FAILED && r.loginTime >= threshold
  }

  /** `get_login_count` / `get_failed_login_count`: the rows of the user with that status. */
  function StatusCount(records: seq<LoginRecord>, u: int, status: string): nat
  {
    |Queries.Where(records, WithStatus(u, status))|
  }

  /** `get_last_login_time`: the first row of the user's successes ordered newest first, if any. */
  function LastLoginTime(records: seq<LoginRecord>, u: int): Option<nat>
  {
    var rows := Queries.Page(records, WithStatus(u, SUCCESS), LoginTime, 0, 1);
    if rows == [] then None else Some(rows[0].loginTime)
  }

  /**
   * The last login time is absent exactly when the user has no successful
   * login, and otherwise is the time of one of them and no earlier than any.
   */
  lemma LastLoginIsLatest(records: seq<LoginRecord>, u: int)
    ensures LastLoginTime(records, u).None? <==>
      forall r :: r in records ==> !(r.userId == u && r.loginStatus == SUCCESS)
    ensures LastLoginTime(records, u).Some? ==>
      (exists r :: r in records && r.userId == u && r.loginStatus == SUCCESS && r.loginTime == LastLoginTime(records, u).value) &&
      forall r :: r in records && r.userId == u && r.loginStatus == SUCCESS ==> r.loginTime <= LastLoginTime(records, u).value
  {
    var all := Queries.Where(records, WithStatus(u, SUCCESS));
    var sorted := Queries.OrderByTimeDesc(all, LoginTime);
    if sorted != [] {
      assert Queries.Page(records, WithStatus(u, SUCCESS), LoginTime, 0, 1) == [sorted[0]];
      assert sorted[0] in multiset(all);
      forall r | r in records && r.userId == u && r.loginStatus == SUCCESS
        ensures r.loginTime <= sorted[0].loginTime
      {
        assert r in multiset(sorted);
        var j :| 0 <= j < |sorted| && sorted[j] == r;
        if j > 0 { assert LoginTime(sorted[0]) >= LoginTime(sorted[j]); }
      }
    } else {
      forall r | r in records ensures !(r.userId == u && r.loginStatus == SUCCESS) {
        assert r.userId == u && r.loginStatus == SUCCESS ==> r in multiset(sorted);
      }
    }
  }

  /** One entry of `get_user_login_history`. */
  datatype LoginEntry = LoginEntry(loginTime: string, ipAddress: Option<string>, userAgent: Option<string>,
                                   loginStatus: string, failureReason: Option<string>)

  /** One entry of `get_recent_failed_logins`. */
  datatype FailedEntry = FailedEntry(loginTime: string, ipAddress: Option<string>, userAgent: Option<string>,
                                     failureReason: Option<string>)

  /** The list comprehension of `get_user_login_history`. */
  function LoginEntries(rows: seq<LoginRecord>, iso: nat -> string): (entries: seq<LoginEntry>)
    ensures |entries| == |rows|
    ensures forall i :: 0 <= i < |rows| ==>
      var r := rows[i];
      entries[i] == LoginEntry(iso(r.loginTime), r.ipAddress, r.userAgent, r.loginStatus, r.failureReason)
  {
    seq(|rows|, i requires 0 <= i < |rows| =>
      LoginEntry(iso(rows[i].loginTime), rows[i].ipAddress, rows[i].userAgent, rows[i].loginStatus, rows[i].failureReason))
  }

  /** The list comprehension of `get_recent_failed_logins`. */
  function FailedEntries(rows: seq<LoginRecord>, iso: nat -> string): (entries: seq<FailedEntry>)
    ensures |entries| == |rows|
    ensures forall i :: 0 <= i < |rows| ==>
      var r := rows[i];
      entries[i] == FailedEntry(iso(r.loginTime), r.ipAddress, r.userAgent, r.failureReason)
  {
    seq(|rows|, i requires 0 <= i < |rows| =>
      FailedEntry(iso(rows[i].loginTime), rows[i].ipAddress, rows[i].userAgent, rows[i].failureReason))
  }

  /** `now - timedelta(hours=hours)` in seconds. */
  function Threshold(now: nat, hours: int): int
  {
    now - hours * SECONDS_PER_HOUR
  }

  /** `timedelta`'s bound on its normalised day count. */
  const MAX_TIMEDELTA_DAYS := 999999999
  /** The aware `datetime` range (years 1 to 9999, whole seconds), in seconds since the epoch. */
  const MIN_TIMESTAMP := -62135596800
  const MAX_TIMESTAMP := 253402300799

  /**
   * `datetime.now(timezone.utc) - timedelta(hours=hours)` can be computed:
   * the hours normalise to a day count (`hours // 24`) within `timedelta`'s
   * range and the threshold stays within the `datetime` range; otherwise
   * Python raises `OverflowError`.
   */
  predicate ThresholdInRange(now: nat, hours: int)
  {
    -MAX_TIMEDELTA_DAYS <= hours / 24 <= MAX_TIMEDELTA_DAYS &&
    MIN_TIMESTAMP <= Threshold(now, hours) <= MAX_TIMESTAMP
  }

  /**
   * The recent failures are exactly the user's failed attempts at or after
   * the threshold, newest first.
   */
  lemma RecentFailuresExact(records: seq<LoginRecord>, u: int, threshold: int)
    ensures var rows := Queries.OrderByTimeDesc(Queries.Where(records, FailedSince(u, threshold)), LoginTime);
      Queries.NewestFirst(rows, LoginTime) &&
      forall r :: r in rows <==> r in records && r.userId == u && r.loginStatus == FAILED && r.loginTime >= threshold
  {
    var all := Queries.Where(records, FailedSince(u, threshold));
    var rows := Queries.OrderByTimeDesc(all, LoginTime);
    forall r ensures r in rows <==> r in all {
      assert r in rows <==> r in multiset(rows);
    }
  }

  /**
   * A recorded attempt adds one to the count of its own user and status and
   * changes no other count.
   */
  lemma CountsAfterAppend(records: seq<LoginRecord>, row: LoginRecord, u: int, status: string)
    ensures StatusCount(records + [row], u, status) ==
      StatusCount(records, u, status) + (if row.userId == u && row.loginStatus == status then 1 else 0)
  {
    Queries.WhereAppend(records, row, WithStatus(u, status));
  }

  /** A successful login no earlier than every recorded one becomes the user's last login time. */
  lemma LastLoginAfterAppend(records: seq<LoginRecord>, row: LoginRecord)
    requires row.loginStatus == SUCCESS
    requires forall r :: r in records ==> r.loginTime <= row.loginTime
    ensures LastLoginTime(records + [row], row.userId) == Some(row.loginTime)
  {
    var rs := records + [row];
    LastLoginIsLatest(rs, row.userId);
    assert row in rs;
  }

  /** The `login_history` table. */
  class LoginLog {
    var records: seq<LoginRecord>
    var nextId: nat

    constructor()
      ensures records == [] && nextId == 1
    {
      records := [];
      nextId := 1;
    }

    /**
     * `create_login_record`: appends exactly one row with the given user,
     * status and reason, stamped with the current time, and returns it with
     * 200; a failed commit rolls back and gives 500.
     */
    method CreateLoginRecord(userId: int, ipAddress: Option<string>, userAgent: Option<string>,
                             loginStatus: string, failureReason: Option<string>, fault: bool, now: nat)
      returns (record: Option<LoginRecord>, code: int)
      modifies this
      ensures fault ==> record.None? && code == SERVER_ERROR && records == old(records) && nextId == old(nextId)
      ensures !fault ==> code == OK && nextId == old(nextId) + 1
      ensures !fault ==>
        record == Some(LoginRecord(old(nextId), userId, now, ipAddress, userAgent, loginStatus, failureReason)) &&
        records == old(records) + [record.value]
    {
      if fault {
        return None, SERVER_ERROR;
      }
      var row := LoginRecord(nextId, userId, now, ipAddress, userAgent, loginStatus, failureReason);
      records := records + [row];
      nextId := nextId + 1;
      return Some(row), OK;
    }

    /**
     * `get_last_login_time`: the time of the user's latest successful login,
     * none when there is none; 500 on a database error.
     */
    method GetLastLoginTime(userId: int, fault: bool) returns (time: Option<nat>, code: int)
      ensures fault ==> time.None? && code == SERVER_ERROR
      ensures !fault ==> code == OK && time == LastLoginTime(records, userId)
      ensures !fault && time.None? ==> forall r :: r in records ==> !(r.userId == userId && r.loginStatus == SUCCESS)
      ensures time.Some? ==>
        forall r :: r in records && r.userId == userId && r.loginStatus == SUCCESS ==> r.loginTime <= time.value
    {
      if fault {
        return None, SERVER_ERROR;
      }
      LastLoginIsLatest(records, userId);
      return LastLoginTime(records, userId), OK;
    }

    /** `get_login_count`: the number of the user's successful logins; 500 on a database error. */
    method GetLoginCount(userId: int, fault: bool) returns (count: Option<nat>, code: int)
      ensures fault ==> count.None? && code == SERVER_ERROR
      ensures !fault ==> code == OK && count == Some(StatusCount(records, userId, SUCCESS))
    {
      if fault {
        return None, SERVER_ERROR;
      }
      return Some(StatusCount(records, userId, SUCCESS)), OK;
    }

    /** `get_failed_login_count`: the number of the user's failed attempts; 500 on a database error. */
    method GetFailedLoginCount(userId: int, fault: bool) returns (count: Option<nat>, code: int)
      ensures fault ==> count.None? && code == SERVER_ERROR
      ensures !fault ==> code == OK && count == Some(StatusCount(records, userId, FAILED))
    {
      if fault {
        return None, SERVER_ERROR;
      }
      return Some(StatusCount(records, userId, FAILED)), OK;
    }

    /**
     * `get_user_login_history`: at most `limit` of the user's attempts,
     * newest first; a negative limit, which the database rejects, and a
     * database error give 500.
     */
    method GetUserLoginHistory(userId: int, limit: int, fault: bool, iso: nat -> string)
      returns (entries: Option<seq<LoginEntry>>, code: int)
      ensures fault || limit < 0 <==> entries.None? && code == SERVER_ERROR
      ensures entries.Some? ==> code == OK && limit >= 0
      ensures entries.Some? ==>
        var rows := Queries.Page(records, OfUser(userId), LoginTime, 0, limit);
        entries.value == LoginEntries(rows, iso) && |rows| <= limit && Queries.NewestFirst(rows, LoginTime) &&
        forall r :: r in rows ==> r in records && r.userId == userId
    {
      if fault || limit < 0 {
        return None, SERVER_ERROR;
      }
      var rows := Queries.Page(records, OfUser(userId), LoginTime, 0, limit);
      Queries.PageSound(records, OfUser(userId), LoginTime, 0, limit);
      return Some(LoginEntries(rows, iso)), OK;
    }

    /**
     * `get_recent_failed_logins`: the user's failed attempts in the last
     * `hours` hours, newest first; 500 on a database error or when the
     * threshold overflows.
     */
    method GetRecentFailedLogins(userId: int, hours: int, now: nat, fault: bool, iso: nat -> string)
      returns (entries: Option<seq<FailedEntry>>, code: int)
      ensures fault || !ThresholdInRange(now, hours) ==> entries.None? && code == SERVER_ERROR
      ensures !fault && ThresholdInRange(now, hours) ==> code == OK && entries.Some?
      ensures !fault && ThresholdInRange(now, hours) ==>
        var rows := Queries.OrderByTimeDesc(Queries.Where(records, FailedSince(userId, Threshold(now, hours))), LoginTime);
        entries.value == FailedEntries(rows, iso) && Queries.NewestFirst(rows, LoginTime) &&
        forall r :: r in rows <==> r in records && r.userId == userId && r.loginStatus == FAILED &&
                                   r.loginTime >= Threshold(now, hours)
    {
      if fault || !ThresholdInRange(now, hours) {
        return None, SERVER_ERROR;
      }
      var threshold := Threshold(now, hours);
      var rows := Queries.OrderByTimeDesc(Queries.Where(records, FailedSince(userId, threshold)), LoginTime);
      RecentFailuresExact(records, userId, threshold);
      return Some(FailedEntries(rows, iso)), OK;
    }
  }
}
