/**
 * The health endpoints of the application package: the database check with
 * its error classification, the database-only check, the detailed check
 * that aggregates component statuses, and the Redis check.  What each query
 * or ping answers is an input; response times and timestamps are left out.
 */
module HealthRoutes {
  import opened Wrappers
  import Text
  import Redis

  const OK := 200
  const MULTI_STATUS := 207
  const SERVER_ERROR := 500
  const SERVICE_UNAVAILABLE := 503

  // ------------------------------------------------------------ error classification

  /** The failure looks like a lost connection: its lower-cased text mentions a connection or the network. */
  predicate ConnectionProblem(message: string)
  {
    Text.Contains(Text.Lower(message), "connection") || Text.Contains(Text.Lower(message), "network")
  }

  /** The status of a failed health check: 503 for a connection problem, 500 for anything else. */
  function ErrorStatus(message: string): (code: int)
    ensures code == SERVICE_UNAVAILABLE || code == SERVER_ERROR
  {
    if ConnectionProblem(message) then SERVICE_UNAVAILABLE else SERVER_ERROR
  }

  lemma LowerIdempotent(s: string)
    ensures Text.Lower(Text.Lower(s)) == Text.Lower(s)
  {
  }

  lemma LowerConcat(a: string, b: string)
    ensures Text.Lower(a + b) == Text.Lower(a) + Text.Lower(b)
  {
    var l := Text.Lower(a + b);
    var r := Text.Lower(a) + Text.Lower(b);
    assert |l| == |r|;
    forall i | 0 <= i < |l| ensures l[i] == r[i] {
      if i < |a| {
        assert (a + b)[i] == a[i];
      } else {
        assert (a + b)[i] == b[i - |a|];
      }
    }
  }

  /** The classification ignores letter case. */
  lemma ErrorStatusIgnoresCase(message: string)
    ensures ErrorStatus(Text.Lower(message)) == ErrorStatus(message)
  {
    LowerIdempotent(message);
  }

  lemma ContainsInContext(a: string, s: string, b: string, sub: string)
    requires Text.Contains(s, sub)
    ensures Text.Contains(a + s + b, sub)
  {
    var i :| 0 <= i <= |s| && Text.OccursAt(s, sub, i);
    var t := a + s + b;
    assert t[|a| + i..|a| + i + |sub|] == s[i..i + |sub|];
    assert Text.OccursAt(t, sub, |a| + i);
  }

  /**
   * A connection problem stays one whatever text surrounds its message, so
   * a driver error that wraps a connection error is still answered with 503.
   */
  lemma ConnectionProblemInContext(a: string, message: string, b: string)
    requires ConnectionProblem(message)
    ensures ErrorStatus(a + message + b) == SERVICE_UNAVAILABLE
  {
    LowerConcat(a + message, b);
    LowerConcat(a, message);
    var lm := Text.Lower(message);
    if Text.Contains(lm, "connection") {
      ContainsInContext(Text.Lower(a), lm, Text.Lower(b), "connection");
    } else {
      ContainsInContext(Text.Lower(a), lm, Text.Lower(b), "network");
    }
  }

  /** A message with neither a `c` nor a `w` in any case cannot mention a connection or the network: 500. */
  lemma NoKeywordLettersIsServerError(message: string)
    requires forall i :: 0 <= i < |message| ==> !(message[i] in "cCwW")
    ensures ErrorStatus(message) == SERVER_ERROR
  {
    var lm := Text.Lower(message);
    forall i | 0 <= i <= |lm| ensures !Text.OccursAt(lm, "connection", i) && !Text.OccursAt(lm, "network", i) {
      if i + 7 <= |lm| {
        assert lm[i..i + 7][3] == lm[i + 3] != 'w';
      }
      if i + 10 <= |lm| {
        assert lm[i..i + 10][0] == lm[i] != 'c';
      }
    }
  }

  // ------------------------------------------------------------ the version banner

  /** Index of the first whitespace character of `s`, or `|s|`. */
  function FirstSpace(s: string): (k: nat)
    ensures k <= |s| && (k < |s| ==> Text.IsSpace(s[k]))
    ensures forall j :: 0 <= j < k ==> !Text.IsSpace(s[j])
  {
    if s == [] || Text.IsSpace(s[0]) then 0 else 1 + FirstSpace(s[1..])
  }

  predicate NoSpace(s: string)
  {
    forall j :: 0 <= j < |s| ==> !Text.IsSpace(s[j])
  }

  /** The first word of `s`: its characters up to the first whitespace. */
  function FirstWord(s: string): (w: string)
    ensures NoSpace(w)
    ensures s != [] && !Text.IsSpace(s[0]) ==> w != []
  {
    var k := FirstSpace(s);
    assert forall j :: 0 <= j < k ==> s[..k][j] == s[j];
    s[..k]
  }

  /** The version token, or the `IndexError` of a banner with fewer than two words. */
  datatype Token = Found(token: string) | IndexError

  const INDEX_ERROR_MESSAGE := "list index out of range"

  /**
   * `version_info.split()[1] if version_info else "unknown"`: the second
   * maximal run of non-whitespace characters, found by skipping the leading
   * whitespace, the first word and the whitespace after it.
   */
  function PostgresVersion(versionInfo: Option<string>): (t: Token)
    ensures versionInfo.None? || versionInfo.value == [] ==> t == Found("unknown")
    ensures t.Found? && versionInfo.Some? && versionInfo.value != [] ==> t.token != [] && NoSpace(t.token)
  {
    if versionInfo.None? || versionInfo.value == [] then Found("unknown")
    else
      var first := Text.LStrip(versionInfo.value);
      var second := Text.LStrip(first[FirstSpace(first)..]);
      if first == [] || second == [] then IndexError else Found(FirstWord(second))
  }

  lemma {:induction false} FirstSpaceOfWord(a: string, rest: string)
    requires NoSpace(a) && (rest == [] || Text.IsSpace(rest[0]))
    ensures FirstSpace(a + rest) == |a|
    decreases |a|
  {
    if a != [] {
      assert (a + rest)[1..] == a[1..] + rest;
      FirstSpaceOfWord(a[1..], rest);
    } else {
      assert a + rest == rest;
    }
  }

  /** A word followed by whitespace or nothing: stripping keeps it, and the word ends where the rest begins. */
  lemma SkipWord(a: string, rest: string)
    requires a != [] && NoSpace(a) && (rest == [] || Text.IsSpace(rest[0]))
    ensures Text.LStrip(a + rest) == a + rest
    ensures (a + rest)[FirstSpace(a + rest)..] == rest
    ensures FirstWord(a + rest) == a
  {
    assert (a + rest)[0] == a[0];
    FirstSpaceOfWord(a, rest);
    assert (a + rest)[|a|..] == rest;
    assert (a + rest)[..|a|] == a;
  }

  /** The steps of `PostgresVersion` on a banner with a second word. */
  lemma VersionSteps(v: string, tail: string, word: string, rest: string)
    requires v != [] && Text.LStrip(v) == v && v[FirstSpace(v)..] == tail
    requires Text.LStrip(tail) == word + rest && word != [] && FirstWord(word + rest) == word
    ensures PostgresVersion(Some(v)) == Found(word)
  {
  }

  /**
   * A banner `PostgreSQL 16.2 ...` reports its second word, whatever
   * follows it.
   */
  lemma VersionIsSecondWord(a: string, b: string, rest: string)
    requires a != [] && NoSpace(a) && b != [] && NoSpace(b)
    requires rest == [] || Text.IsSpace(rest[0])
    ensures PostgresVersion(Some(a + " " + b + rest)) == Found(b)
  {
    var tail := [' '] + (b + rest);
    SpaceThenWord(b, rest);
    SkipWord(a, tail);
    Associate(a, b, rest);
    VersionSteps(a + tail, tail, b, rest);
  }

  lemma SpaceThenWord(b: string, rest: string)
    requires b != [] && NoSpace(b) && (rest == [] || Text.IsSpace(rest[0]))
    ensures Text.LStrip([' '] + (b + rest)) == b + rest && FirstWord(b + rest) == b
  {
    assert ([' '] + (b + rest))[1..] == b + rest;
    SkipWord(b, rest);
  }

  lemma Associate(a: string, b: string, rest: string)
    ensures a + " " + b + rest == a + ([' '] + (b + rest))
  {
  }

  /** A banner of one word makes the version lookup fail. */
  lemma OneWordBannerFails(a: string, rest: string)
    requires a != [] && NoSpace(a) && Text.AllSpace(rest)
    ensures PostgresVersion(Some(a + rest)) == IndexError
  {
    var x := a + rest;
    assert Text.LStrip(x) == x && x != [] && x[FirstSpace(x)..] == rest by {
      assert rest == [] || Text.IsSpace(rest[0]);
      SkipWord(a, rest);
    }
    assert Text.LStrip(rest) == [];
  }

  // ------------------------------------------------------------ GET /health

  /** What the three queries of the check gave: the version banner and database name, or the error raised. */
  datatype DbAnswer = Answered(versionInfo: Option<string>, databaseName: string) | Raised(message: string)

  datatype HealthResponse = HealthResponse(
    success: bool,
    status: string,
    connection: string,
    databaseName: string,
    postgresqlVersion: string,
    environment: string,
    error: Option<string>,
    statusCode: int)

  /**
   * `health_check`: the database name and version with 200 when the
   * queries answer; when they raise (including the version lookup of a
   * one-word banner), `unhealthy` with the classified status.
   */
  function HealthCheck(answer: DbAnswer, environment: string): (r: HealthResponse)
    ensures r.success <==> r.statusCode == OK
    ensures r.success <==> answer.Answered? && PostgresVersion(answer.versionInfo).Found?
    ensures r.success ==>
      r.status == "healthy" && r.connection == "active" && r.error == None &&
      r.databaseName == answer.databaseName && r.postgresqlVersion == PostgresVersion(answer.versionInfo).token
    ensures answer.Raised? ==> r.statusCode == ErrorStatus(answer.message) && r.error == Some(answer.message)
    ensures !r.success ==>
      r.status == "unhealthy" && r.connection == "failed" && r.databaseName == "unknown" && r.postgresqlVersion == "unknown"
  {
    var message :=
      if answer.Raised? then Some(answer.message)
      else if PostgresVersion(answer.versionInfo).IndexError? then Some(INDEX_ERROR_MESSAGE)
      else None;
    if message.None? then
      HealthResponse(true, "healthy", "active", answer.databaseName, PostgresVersion(answer.versionInfo).token,
                     environment, None, OK)
    else
      HealthResponse(false, "unhealthy", "failed", "unknown", "unknown", environment, message,
                     ErrorStatus(message.value))
  }

  // ------------------------------------------------------------ GET /health/db

  datatype DbHealthResponse = DbHealthResponse(success: bool, status: string, error: Option<string>, statusCode: int)

  /** `database_health_check`: `connected`, or `disconnected`/503 and `error`/500 by the same classification. */
  function DatabaseHealthCheck(failure: Option<string>): (r: DbHealthResponse)
    ensures failure.None? <==> r.success
    ensures failure.None? ==> r.status == "connected" && r.statusCode == OK
    ensures failure.Some? ==> r.error == failure && r.statusCode == ErrorStatus(failure.value)
    ensures failure.Some? ==> (r.status == "disconnected" <==> r.statusCode == SERVICE_UNAVAILABLE)
    ensures failure.Some? ==> (r.status == "error" <==> r.statusCode == SERVER_ERROR)
  {
    if failure.None? then DbHealthResponse(true, "connected", None, OK)
    else if ConnectionProblem(failure.value) then DbHealthResponse(false, "disconnected", failure, SERVICE_UNAVAILABLE)
    else DbHealthResponse(false, "error", failure, SERVER_ERROR)
  }

  /** The two database checks give a failure the same status code. */
  lemma DatabaseChecksAgree(message: string, environment: string)
    ensures DatabaseHealthCheck(Some(message)).statusCode == HealthCheck(Raised(message), environment).statusCode
  {
  }

  // ------------------------------------------------------------ GET /health/detailed

  datatype Component = Component(status: string, error: Option<string>, message: string)

  datatype DetailedResponse = DetailedResponse(success: bool, status: string, components: map<string, Component>,
                                               environment: string, statusCode: int)

  /**
   * `detailed_health_check`: the database component and the API component
   * are recorded; a database failure marks the report degraded and critical,
   * which gives 503.  Since degraded is only ever set together with the
   * critical flag, the 207 answer is never given.
   */
  method DetailedHealthCheck(dbFailure: Option<string>, environment: string) returns (r: DetailedResponse)
    ensures r.success <==> dbFailure.None?
    ensures r.statusCode == (if dbFailure.None? then OK else SERVICE_UNAVAILABLE)
    ensures r.status == (if dbFailure.None? then "healthy" else "degraded")
    ensures r.statusCode != MULTI_STATUS
    ensures r.components.Keys == {"database", "api_service"}
    ensures r.components["database"].status == (if dbFailure.None? then "healthy" else "unhealthy")
    ensures r.components["database"].error == dbFailure
    ensures r.components["api_service"].status == "healthy"
  {
    var components: map<string, Component> := map[];
    var overallStatus := "healthy";
    var hasCriticalFailures := false;
    if dbFailure.None? {
      components := components["database" := Component("healthy", None, "Database connection successful")];
    } else {
      components := components["database" := Component("unhealthy", dbFailure, "Database connection failed")];
      overallStatus := "degraded";
      hasCriticalFailures := true;
    }
    components := components["api_service" := Component("healthy", None, "API service is running")];
    var statusCode;
    if hasCriticalFailures {
      statusCode := SERVICE_UNAVAILABLE;
    } else if overallStatus == "degraded" {
      statusCode := MULTI_STATUS;
    } else {
      statusCode := OK;
    }
    return DetailedResponse(!hasCriticalFailures, overallStatus, components, environment, statusCode);
  }

  // ------------------------------------------------------------ GET /health/redis

  datatype RedisHealthResponse =
    | RedisReport(status: string, message: string, initialized: bool, connected: Option<bool>)
    | RedisUnavailable(statusCode: int, detail: string)

  /**
   * `check_redis_health`: an unconfigured service is reported unhealthy
   * without a ping; otherwise the ping decides, and a ping that raises
   * gives 503.  `ping` is `None` when it raises.  The route's second test,
   * a service marked initialised whose `redis` connection is unset, is
   * folded into `initialized`: the model's service holds a connection
   * exactly when it is initialised.
   */
  function RedisHealth(service: Redis.RedisService, ping: Option<bool>): (r: RedisHealthResponse)
    reads service
    ensures !service.initialized ==> r == RedisReport("unhealthy", "Redis not initialized", false, None)
    ensures service.initialized && ping.None? ==> r.RedisUnavailable? && r.statusCode == SERVICE_UNAVAILABLE
    ensures service.initialized && ping.Some? ==>
      r.RedisReport? && r.initialized && r.connected == ping && (r.status == "healthy" <==> ping.value)
  {
    if !service.initialized then RedisReport("unhealthy", "Redis not initialized", false, None)
    else if ping.None? then RedisUnavailable(SERVICE_UNAVAILABLE, "Redis health check failed")
    else if ping.value then RedisReport("healthy", "Redis connection successful", true, ping)
    else RedisReport("unhealthy", "Redis connection failed", true, ping)
  }
}
