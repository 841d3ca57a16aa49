/**
 * Database connection health: the throttled health checker with exponential
 * backoff and the connection manager of the main database module, the SSL
 * connect arguments, and the simpler fixed-interval checker with the
 * module-level engine of the two older database modules.  The clock is a
 * `now` parameter in whole seconds; the outcome of each probe (`SELECT 1`)
 * and of each engine step is an input.
 */
module DbHealth {
  import opened Wrappers

  // ------------------------------------------------------------------ backoff

  function Pow(b: nat, e: nat): nat
  {
    if e == 0 then 1 else b * Pow(b, e - 1)
  }

  lemma {:induction false} PowMonotone(b: nat, e1: nat, e2: nat)
    requires b >= 1 && e1 <= e2
    ensures 1 <= Pow(b, e1) <= Pow(b, e2)
    decreases e2
  {
    if e2 > 0 {
      if e1 < e2 {
        PowMonotone(b, e1, e2 - 1);
      } else {
        PowMonotone(b, e1 - 1, e2 - 1);
      }
      MulMonotone(1, b, Pow(b, e2 - 1));
    }
  }

  lemma MulMonotone(a: nat, b: nat, c: nat)
    requires a <= b
    ensures a * c <= b * c
  {
  }

  function Min(a: int, b: int): int
  {
    if a <= b then a else b
  }

  /**
   * `_calculate_backoff_interval`: the check interval after at most one
   * failure, then the interval times `multiplier^(failures-1)`, capped at
   * `max_backoff`.  The multiplier is a whole number here.
   */
  function BackoffInterval(failures: nat, checkInterval: int, multiplier: nat, maxBackoff: int): int
  {
    if failures <= 1 then checkInterval else Min(checkInterval * Pow(multiplier, failures - 1), maxBackoff)
  }

  /**
   * With a multiplier of at least 1 and a cap of at least the check
   * interval, the interval never shrinks as failures accumulate, and it
   * stays between the check interval and the cap.
   */
  lemma BackoffMonotone(f1: nat, f2: nat, checkInterval: nat, multiplier: nat, maxBackoff: int)
    requires f1 <= f2 && multiplier >= 1 && maxBackoff >= checkInterval
    ensures checkInterval <= BackoffInterval(f1, checkInterval, multiplier, maxBackoff)
    ensures BackoffInterval(f1, checkInterval, multiplier, maxBackoff) <= BackoffInterval(f2, checkInterval, multiplier, maxBackoff)
    ensures BackoffInterval(f2, checkInterval, multiplier, maxBackoff) <= maxBackoff
  {
    if f1 >= 2 {
      PowMonotone(multiplier, f1 - 1, f2 - 1);
      MulMonotone(Pow(multiplier, f1 - 1), Pow(multiplier, f2 - 1), checkInterval);
      MulMonotone(1, Pow(multiplier, f1 - 1), checkInterval);
    } else if f2 >= 2 {
      PowMonotone(multiplier, 0, f2 - 1);
      MulMonotone(1, Pow(multiplier, f2 - 1), checkInterval);
    }
  }

  /** A positive check interval and cap give a positive interval: a check just made is never due again at once. */
  lemma BackoffPositive(failures: nat, checkInterval: int, multiplier: nat, maxBackoff: int)
    requires checkInterval > 0 && maxBackoff > 0 && multiplier >= 1
    ensures BackoffInterval(failures, checkInterval, multiplier, maxBackoff) > 0
  {
    if failures >= 2 {
      PowMonotone(multiplier, 0, failures - 1);
      MulMonotone(1, Pow(multiplier, failures - 1), checkInterval);
    }
  }

  // ------------------------------------------------------------------ SSL

  /** The `ssl` connect argument handed to asyncpg. */
  datatype SslArg = SslText(mode: string) | SslFlag(on: bool)

  /** `_get_ssl_connect_args`: a table of the five known modes, `True` for any other. */
  function SslConnectArg(sslMode: string): (a: SslArg)
    ensures a == SslFlag(false) <==> sslMode == "disable"
    ensures a == SslText("verify-full") <==> sslMode == "verify-ca" || sslMode == "verify-full"
    ensures a == SslText("require") <==> sslMode == "require"
    ensures a.SslText? || a == SslFlag(true) || a == SslFlag(false)
  {
    var configs := map[
      "require" := SslText("require"),
      "prefer" := SslFlag(true),
      "disable" := SslFlag(false),
      "verify-ca" := SslText("verify-full"),
      "verify-full" := SslText("verify-full")];
    if sslMode in configs then configs[sslMode] else SslFlag(true)
  }

  /** The if-chain of the older `init_db`. */
  function InitDbSslArg(sslMode: string): SslArg
  {
    if sslMode == "require" then SslText("require")
    else if sslMode == "prefer" then SslFlag(true)
    else if sslMode == "disable" then SslFlag(false)
    else if sslMode == "verify-ca" || sslMode == "verify-full" then SslText("verify-full")
    else SslFlag(true)
  }

  /** The two modules hand the same SSL argument to the driver for every mode. */
  lemma SslMappingsAgree(sslMode: string)
    ensures SslConnectArg(sslMode) == InitDbSslArg(sslMode)
  {
  }

  // ------------------------------------------------------------------ the checker with backoff

  /** `get_metrics` */
  datatype Metrics = Metrics(
    isHealthy: bool,
    consecutiveFailures: nat,
    lastCheck: int,
    lastSuccessfulCheck: int,
    timeSinceLastCheck: int,
    timeSinceLastSuccess: int,
    lastError: Option<string>,
    nextCheckIn: int)

  /**
   * `DatabaseHealthChecker` with exponential backoff.  Its own methods keep
   * `is_healthy` exactly when no failure is being counted.
   */
  class DatabaseHealthChecker {
    var lastCheck: int
    var isHealthy: bool
    var consecutiveFailures: nat
    const checkInterval: int
    const maxConsecutiveFailures: int
    const backoffMultiplier: nat
    const maxBackoff: int
    var lastError: Option<string>
    var lastSuccessfulCheck: int

    predicate Consistent()
      reads this
    {
      isHealthy <==> consecutiveFailures == 0
    }

    /** The interval the next check must wait. */
    function Interval(): int
      reads this
    {
      BackoffInterval(consecutiveFailures, checkInterval, backoffMultiplier, maxBackoff)
    }

    /** A check at `now` probes the database rather than answering from the last result. */
    predicate Due(now: int)
      reads this
    {
      now - lastCheck >= Interval()
    }

    /** What a check at `now` answers when a probe would answer `probeOk`. */
    predicate Answer(now: int, probeOk: bool)
      reads this
    {
      if Due(now) then probeOk else isHealthy
    }

    /** Defaults: every 30 s, 3 failures before alarm, multiplier 2, backoff capped at 300 s. */
    constructor(checkInterval: int, maxConsecutiveFailures: int, backoffMultiplier: nat, maxBackoff: int, now: int)
      ensures this.checkInterval == checkInterval && this.maxConsecutiveFailures == maxConsecutiveFailures
      ensures this.backoffMultiplier == backoffMultiplier && this.maxBackoff == maxBackoff
      ensures lastCheck == 0 && isHealthy && consecutiveFailures == 0 && lastError == None
      ensures lastSuccessfulCheck == now && Consistent()
    {
      this.checkInterval := checkInterval;
      this.maxConsecutiveFailures := maxConsecutiveFailures;
      this.backoffMultiplier := backoffMultiplier;
      this.maxBackoff := maxBackoff;
      lastCheck := 0;
      isHealthy := true;
      consecutiveFailures := 0;
      lastError := None;
      lastSuccessfulCheck := now;
    }

    /**
     * The probe itself: success resets the failure tracking and stamps both
     * check times; failure counts one more failure, stamps the check time
     * and records the error.
     */
    method Probe(now: int, probeOk: bool, error: string) returns (healthy: bool)
      modifies this
      ensures healthy == probeOk && isHealthy == probeOk && lastCheck == now && Consistent()
      ensures probeOk ==> consecutiveFailures == 0 && lastSuccessfulCheck == now && lastError == None
      ensures !probeOk ==>
        consecutiveFailures == old(consecutiveFailures) + 1 &&
        lastSuccessfulCheck == old(lastSuccessfulCheck) && lastError == Some(error)
    {
      if probeOk {
        isHealthy := true;
        consecutiveFailures := 0;
        lastCheck := now;
        lastSuccessfulCheck := now;
        lastError := None;
        return true;
      }
      consecutiveFailures := consecutiveFailures + 1;
      isHealthy := false;
      lastCheck := now;
      lastError := Some(error);
      return false;
    }

    /**
     * `check_health`: before the backoff interval has passed since the last
     * check, the last result is returned and nothing changes; otherwise the
     * database is probed.
     */
    method CheckHealth(now: int, probeOk: bool, error: string) returns (healthy: bool)
      modifies this
      ensures healthy == old(Answer(now, probeOk))
      ensures !old(Due(now)) ==>
        healthy == old(isHealthy) && lastCheck == old(lastCheck) && isHealthy == old(isHealthy) &&
        consecutiveFailures == old(consecutiveFailures) && lastError == old(lastError) &&
        lastSuccessfulCheck == old(lastSuccessfulCheck)
      ensures old(Due(now)) ==> healthy == probeOk && isHealthy == probeOk && lastCheck == now && Consistent()
      ensures old(Due(now)) && probeOk ==> consecutiveFailures == 0 && lastSuccessfulCheck == now && lastError == None
      ensures old(Due(now)) && !probeOk ==>
        consecutiveFailures == old(consecutiveFailures) + 1 &&
        lastSuccessfulCheck == old(lastSuccessfulCheck) && lastError == Some(error)
      ensures old(Consistent()) ==> Consistent()
    {
      if !Due(now) {
        return isHealthy;
      }
      healthy := Probe(now, probeOk, error);
    }

    /**
     * `get_metrics`; `next_check_in` is never negative, is 0 exactly when a
     * check now would probe, and otherwise counts the seconds until the
     * backoff interval has passed.
     */
    function GetMetrics(now: int): (m: Metrics)
      reads this
      ensures m.nextCheckIn >= 0
      ensures m.nextCheckIn == 0 <==> Due(now)
      ensures m.nextCheckIn > 0 ==> Due(now + m.nextCheckIn) && !Due(now + m.nextCheckIn - 1)
    {
      var since := now - lastCheck;
      Metrics(isHealthy, consecutiveFailures, lastCheck, lastSuccessfulCheck, since, now - lastSuccessfulCheck,
              lastError, if Interval() - since > 0 then Interval() - since else 0)
    }
  }

  // ------------------------------------------------------------------ the connection manager

  /**
   * `DatabaseManager`: the engine, present or not, with the SSL argument it
   * was built with, and its health checker.
   */
  class DatabaseManager {
    var engine: Option<SslArg>
    const checker: DatabaseHealthChecker

    constructor(now: int)
      ensures engine == None && fresh(checker)
      ensures checker.checkInterval == 30 && checker.maxConsecutiveFailures == 3
      ensures checker.backoffMultiplier == 2 && checker.maxBackoff == 300
      ensures checker.isHealthy && checker.consecutiveFailures == 0 && checker.lastCheck == 0
    {
      engine := None;
      checker := new DatabaseHealthChecker(30, 3, 2, 300, now);
    }

    /** The connect argument of a new engine; without SSL it is `False`. */
    function EngineArg(sslEnabled: bool, sslMode: string): SslArg
    {
      if sslEnabled then SslConnectArg(sslMode) else SslFlag(false)
    }

    /** `close_connection`: the engine is disposed and forgotten. */
    method CloseConnection()
      modifies this
      ensures engine == None
    {
      engine := None;
    }

    /**
     * `_initialize`: nothing happens when an engine exists.  Otherwise the
     * engine is built, the tables created and the connection verified with
     * `check_health`; a failure in any step closes the engine again and
     * raises `DatabaseError` (`ok` false).
     */
    method Initialize(sslEnabled: bool, sslMode: string, buildOk: bool, tablesOk: bool,
                      probeOk: bool, error: string, now: int) returns (ok: bool)
      modifies this, checker
      ensures old(engine).Some? ==> ok && engine == old(engine)
      ensures old(engine).None? ==>
        (ok <==> buildOk && tablesOk && old(checker.Answer(now, probeOk))) &&
        engine == (if ok then Some(EngineArg(sslEnabled, sslMode)) else None)
      ensures !(old(engine).None? && buildOk && tablesOk) ==>
        checker.lastCheck == old(checker.lastCheck) && checker.isHealthy == old(checker.isHealthy) && checker.consecutiveFailures == old(checker.consecutiveFailures)
      ensures old(checker.Consistent()) ==> checker.Consistent()
    {
      if engine.Some? {
        return true;
      }
      if !buildOk {
        CloseConnection();
        return false;
      }
      engine := Some(EngineArg(sslEnabled, sslMode));
      if !tablesOk {
        CloseConnection();
        return false;
      }
      var healthy := checker.CheckHealth(now, probeOk, error);
      if !healthy {
        CloseConnection();
        return false;
      }
      return true;
    }

    /**
     * `_initialize` with the verification probing the new connection
     * instead of consulting the throttled checker.
     */
    method InitializeProbing(sslEnabled: bool, sslMode: string, buildOk: bool, tablesOk: bool,
                             probeOk: bool, error: string, now: int) returns (ok: bool)
      modifies this, checker
      ensures old(engine).Some? ==> ok && engine == old(engine)
      ensures old(engine).None? ==>
        (ok <==> buildOk && tablesOk && probeOk) &&
        engine == (if ok then Some(EngineArg(sslEnabled, sslMode)) else None)
      ensures old(engine).None? && buildOk && tablesOk ==> checker.isHealthy == probeOk && checker.Consistent()
      ensures old(checker.Consistent()) ==> checker.Consistent()
    {
      if engine.Some? {
        return true;
      }
      if !buildOk {
        CloseConnection();
        return false;
      }
      engine := Some(EngineArg(sslEnabled, sslMode));
      if !tablesOk {
        CloseConnection();
        return false;
      }
      var healthy := checker.Probe(now, probeOk, error);
      if !healthy {
        CloseConnection();
        return false;
      }
      return true;
    }

    /**
     * `ensure_initialized` as written: with no engine the database is
     * initialised; with one, a failed health check closes it and initialises
     * again.  The re-initialisation verifies through the same throttled
     * checker, which has just recorded the failure or answered from it, so
     * with a positive interval and cap it always fails and leaves no engine,
     * whatever the database answers then.
     */
    method EnsureInitialized(sslMode: string, checkOk: bool, buildOk: bool, tablesOk: bool, verifyOk: bool,
                             error: string, now: int) returns (ok: bool)
      modifies this, checker
      ensures old(engine).None? ==> (ok <==> buildOk && tablesOk && old(checker.Answer(now, verifyOk)))
      ensures old(engine).Some? && old(checker.Answer(now, checkOk)) ==> ok && engine == old(engine)
      ensures old(engine).Some? && !old(checker.Answer(now, checkOk)) &&
        checker.checkInterval > 0 && checker.maxBackoff > 0 && checker.backoffMultiplier >= 1
        ==> !ok && engine == None
    {
      if engine.None? {
        ok := Initialize(true, sslMode, buildOk, tablesOk, verifyOk, error, now);
        return;
      }
      var healthy := checker.CheckHealth(now, checkOk, error);
      if !healthy {
        if checker.checkInterval > 0 && checker.maxBackoff > 0 && checker.backoffMultiplier >= 1 {
          BackoffPositive(checker.consecutiveFailures, checker.checkInterval, checker.backoffMultiplier, checker.maxBackoff);
        }
        CloseConnection();
        ok := Initialize(true, sslMode, buildOk, tablesOk, verifyOk, error, now);
        return;
      }
      return true;
    }

    /**
     * `ensure_initialized` with a probing verification: after a failed
     * health check the engine is rebuilt, and the call succeeds exactly when
     * building, creating the tables and the new probe do.
     */
    method EnsureInitializedRecovering(sslMode: string, checkOk: bool, buildOk: bool, tablesOk: bool, verifyOk: bool,
                                       error: string, now: int) returns (ok: bool)
      modifies this, checker
      ensures old(engine).None? ==> (ok <==> buildOk && tablesOk && verifyOk)
      ensures old(engine).Some? && old(checker.Answer(now, checkOk)) ==> ok && engine == old(engine)
      ensures old(engine).Some? && !old(checker.Answer(now, checkOk)) ==>
        (ok <==> buildOk && tablesOk && verifyOk) && engine == (if ok then Some(SslConnectArg(sslMode)) else None)
    {
      if engine.None? {
        ok := InitializeProbing(true, sslMode, buildOk, tablesOk, verifyOk, error, now);
        return;
      }
      var healthy := checker.CheckHealth(now, checkOk, error);
      if !healthy {
        CloseConnection();
        ok := InitializeProbing(true, sslMode, buildOk, tablesOk, verifyOk, error, now);
        return;
      }
      return true;
    }

    /** `verify_health`: the checker's answer when there is an engine, false otherwise. */
    method VerifyHealth(probeOk: bool, error: string, now: int) returns (healthy: bool)
      modifies checker
      ensures engine.None? ==> !healthy && checker.lastCheck == old(checker.lastCheck)
      ensures engine.Some? ==> healthy == old(checker.Answer(now, probeOk))
    {
      if engine.None? {
        return false;
      }
      healthy := checker.CheckHealth(now, probeOk, error);
    }

    /**
     * `session_scope` on a disconnection error marks the checker unhealthy
     * directly, without counting a failure: the one place where
     * `is_healthy` and the failure count disagree.
     */
    method SessionDisconnected()
      modifies checker
      ensures !checker.isHealthy
      ensures checker.consecutiveFailures == old(checker.consecutiveFailures) && checker.lastCheck == old(checker.lastCheck)
      ensures old(checker.consecutiveFailures) == 0 ==> !checker.Consistent()
    {
      checker.isHealthy := false;
    }

    /** The `status` of `get_stats`. */
    function StatsStatus(): (s: string)
      reads this, checker
      ensures engine.None? <==> s == "not_initialized"
      ensures engine.Some? ==> (s == "healthy" <==> checker.isHealthy)
    {
      if engine.None? then "not_initialized" else if checker.isHealthy then "healthy" else "unhealthy"
    }
  }

  // ------------------------------------------------------------------ the fixed-interval checker

  /** Seconds between probes of the older checkers. */
  const CHECK_EVERY := 30

  /**
   * The `DatabaseHealthChecker` of the two older database modules: a fixed
   * 30 s throttle, and a failed probe does not move `last_check`.
   */
  class FixedIntervalChecker {
    var lastCheck: int
    var isHealthy: bool
    var consecutiveFailures: nat

    predicate Consistent()
      reads this
    {
      isHealthy <==> consecutiveFailures == 0
    }

    predicate Due(now: int)
      reads this
    {
      now - lastCheck >= CHECK_EVERY
    }

    constructor()
      ensures lastCheck == 0 && isHealthy && consecutiveFailures == 0 && Consistent()
    {
      lastCheck := 0;
      isHealthy := true;
      consecutiveFailures := 0;
    }

    /**
     * `check_health`: within 30 s of the last successful check the last
     * result is returned; otherwise a probe decides.  A failure leaves
     * `last_check` alone, so every later call probes again until one
     * succeeds.
     */
    method CheckHealth(now: int, probeOk: bool) returns (healthy: bool)
      modifies this
      ensures !old(Due(now)) ==>
        healthy == old(isHealthy) && lastCheck == old(lastCheck) && isHealthy == old(isHealthy) &&
        consecutiveFailures == old(consecutiveFailures)
      ensures old(Due(now)) && probeOk ==> healthy && isHealthy && consecutiveFailures == 0 && lastCheck == now
      ensures old(Due(now)) && !probeOk ==>
        !healthy && !isHealthy && consecutiveFailures == old(consecutiveFailures) + 1 && lastCheck == old(lastCheck)
      ensures old(Due(now)) && !probeOk ==> forall later :: later >= now ==> Due(later)
      ensures old(Consistent()) ==> Consistent()
    {
      if !Due(now) {
        return isHealthy;
      }
      if probeOk {
        isHealthy := true;
        consecutiveFailures := 0;
        lastCheck := now;
        return true;
      }
      consecutiveFailures := consecutiveFailures + 1;
      isHealthy := false;
      return false;
    }
  }

  /**
   * The module-level engine of the older database modules and their global
   * checker.  `withSsl` tells the two apart: one builds the engine with the
   * SSL argument of the configured mode, the other with none.
   */
  class GlobalDatabase {
    var engine: Option<Option<SslArg>>
    const withSsl: bool
    const checker: FixedIntervalChecker

    constructor(withSsl: bool)
      ensures this.withSsl == withSsl && engine == None && fresh(checker)
      ensures checker.isHealthy && checker.consecutiveFailures == 0 && checker.lastCheck == 0
    {
      this.withSsl := withSsl;
      engine := None;
      checker := new FixedIntervalChecker();
    }

    function BuiltArg(sslMode: string): Option<SslArg>
      reads this
    {
      if withSsl then Some(InitDbSslArg(sslMode)) else None
    }

    /**
     * `init_db`: the engine is (re)built and kept even when creating the
     * tables then fails; that failure raises 503 (`ok` false).  The health
     * check at the end runs but its answer is not used.
     */
    method InitDb(sslMode: string, tablesOk: bool, probeOk: bool, now: int) returns (ok: bool)
      modifies this, checker
      ensures engine == Some(BuiltArg(sslMode))
      ensures ok == tablesOk
      ensures !tablesOk ==> checker.lastCheck == old(checker.lastCheck) && checker.isHealthy == old(checker.isHealthy)
      ensures tablesOk && old(checker.Due(now)) ==> checker.isHealthy == probeOk
      ensures !old(checker.Due(now)) ==> checker.isHealthy == old(checker.isHealthy)
      ensures old(checker.Consistent()) ==> checker.Consistent()
    {
      engine := Some(BuiltArg(sslMode));
      if !tablesOk {
        return false;
      }
      var _ := checker.CheckHealth(now, probeOk);
      return true;
    }

    /**
     * `ensure_db_initialized`: with no engine, `init_db`; with one whose
     * health check fails, close it and `init_db` again.  Since the failure
     * did not move `last_check`, the new engine is probed again at once.
     * A stored failure answered before the interval has passed also leads to
     * a rebuild, and the new engine's check answers that stored failure too.
     */
    method EnsureDbInitialized(sslMode: string, checkOk: bool, tablesOk: bool, probeOk: bool, now: int)
      returns (ok: bool)
      modifies this, checker
      ensures old(engine).None? ==> ok == tablesOk && engine == Some(BuiltArg(sslMode))
      ensures old(engine).Some? && !old(checker.Due(now)) && old(checker.isHealthy) ==> ok && engine == old(engine)
      ensures old(engine).Some? && !old(checker.Due(now)) && !old(checker.isHealthy) ==>
        ok == tablesOk && engine == Some(BuiltArg(sslMode)) && !checker.isHealthy
      ensures old(engine).Some? && old(checker.Due(now)) && checkOk ==> ok && engine == old(engine)
      ensures old(engine).Some? && old(checker.Due(now)) && !checkOk ==>
        ok == tablesOk && engine == Some(BuiltArg(sslMode)) && (tablesOk ==> checker.isHealthy == probeOk)
    {
      if engine.None? {
        ok := InitDb(sslMode, tablesOk, probeOk, now);
        return;
      }
      var healthy := checker.CheckHealth(now, checkOk);
      if !healthy {
        // `close_db` disposes the engine without clearing the global.
        ok := InitDb(sslMode, tablesOk, probeOk, now);
        return;
      }
      return true;
    }
  }
}
