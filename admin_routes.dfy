/**
 * `AdminRoutes`: the status mapping of the admin configuration endpoints.
 * The service call is a parameter: it receives the body's `value` and gives
 * back the service's `(success, status)` pair.
 */
module AdminRoutes {
  import opened Wrappers
  import ConfigService

  /** A response: the HTTP status and its message (detail for an error). */
  datatype Response = Response(code: int, message: string)

  /** `update_system_config` */
  function UpdateSystemConfig(body: map<string, ConfigService.PyValue>,
                              update: ConfigService.PyValue -> (bool, int)): (r: Response)
    ensures "value" !in body ==> r == Response(400, "Value field is required")
    ensures "value" in body ==>
      var (success, code) := update(body["value"]);
      (r.code == 200 <==> success) &&
      (success ==> r.message == "Configuration updated successfully") &&
      (!success && code == 404 ==> r == Response(404, "Configuration key not found")) &&
      (!success && code == 403 ==> r == Response(403, "Configuration is not editable")) &&
      (!success && code != 404 && code != 403 ==> r == Response(500, "Failed to update configuration"))
  {
    if "value" !in body then Response(400, "Value field is required")
    else
      var (success, code) := update(body["value"]);
      if success then Response(200, "Configuration updated successfully")
      else if code == 404 then Response(404, "Configuration key not found")
      else if code == 403 then Response(403, "Configuration is not editable")
      else Response(500, "Failed to update configuration")
  }

  /**
   * Only the statuses 200, 400, 403, 404 and 500 can come out of the update
   * endpoint, whatever the service returns.
   */
  lemma UpdateStatusesAreClosed(body: map<string, ConfigService.PyValue>,
                                update: ConfigService.PyValue -> (bool, int))
    ensures UpdateSystemConfig(body, update).code in {200, 400, 403, 404, 500}
  {
  }

  /**
   * Wired to `ConfigTable.UpdateConfig`: a missing key gives 404, a
   * read-only key 403, a database error 500, and an editable key 200.
   */
  lemma UpdateAgainstTable(body: map<string, ConfigService.PyValue>, entries: map<string, ConfigService.ConfigEntry>,
                           key: string, fault: bool)
    requires "value" in body
    ensures var r := UpdateSystemConfig(body, v => ConfigService.UpdateStatus(entries, key, fault));
      (fault ==> r.code == 500) &&
      (!fault && key !in entries ==> r.code == 404) &&
      (!fault && key in entries && !entries[key].editable ==> r.code == 403) &&
      (!fault && key in entries && entries[key].editable ==> r.code == 200)
  {
  }

  /** `get_system_config`: a non-200 status is raised unchanged, 200 returns the data. */
  function GetSystemConfig(config: Option<map<string, ConfigService.ConfigView>>, code: int)
    : (r: (Response, Option<map<string, ConfigService.ConfigView>>))
    ensures code != 200 ==> r == (Response(code, "Failed to retrieve configuration"), None)
    ensures code == 200 ==> r.0.code == 200 && r.1 == config
  {
    if code != 200 then (Response(code, "Failed to retrieve configuration"), None)
    else (Response(200, "Configuration retrieved successfully"), config)
  }
}
