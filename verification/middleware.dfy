/** The two request middlewares: the API call counters kept in the cache,
    and the DAC audit recorder that writes one AuditLog row per response.
    The clock is a parameter (`today`, `now`); cache timeouts are not part
    of this model. */
module Middleware {
  import opened Wrappers
  import opened Text
  import opened Accounts
  import opened DacModels

  // ----- API call counters -----

  /** The integer counters of the cache; a missing key reads as 0. */
  type Counters = map<string, int>

  function Count(c: Counters, key: string): int {
    if key in c then c[key] else 0
  }

  const TotalKey: string := "api_total_calls"
  const EndpointPrefix: string := "api_endpoint_"
  const DailyPrefix: string := "api_calls_daily_"
  const ApiPrefix: string := "/api/"

  /** `f'api_endpoint_{path}_{method}'`. */
  function EndpointKey(path: string, verb: string): string {
    EndpointPrefix + path + "_" + verb
  }

  /** `f'api_calls_daily_{today}'` with `today` already formatted. */
  function DailyKey(today: string): string {
    DailyPrefix + today
  }

  /** The three counter keys of one request are pairwise different: they
      already differ at their fifth character. */
  lemma CounterKeysDistinct(path: string, verb: string, today: string)
    ensures TotalKey != EndpointKey(path, verb)
    ensures TotalKey != DailyKey(today)
    ensures EndpointKey(path, verb) != DailyKey(today)
  {
    assert TotalKey[4] == 't';
    assert EndpointKey(path, verb)[4] == 'e';
    assert DailyKey(today)[4] == 'c';
  }

  function Bump(c: Counters, key: string): Counters {
    c[key := Count(c, key) + 1]
  }

  /** `APICallCounterMiddleware.process_request`: only `/api/` paths are
      counted, and then the total, the endpoint/method and the day counter
      each go up by exactly one; nothing else changes. */
  function CountRequest(c: Counters, path: string, verb: string, today: string): (r: Counters)
    ensures !StartsWith(path, ApiPrefix) ==> r == c
    ensures StartsWith(path, ApiPrefix) ==>
              && Count(r, TotalKey) == Count(c, TotalKey) + 1
              && Count(r, EndpointKey(path, verb)) == Count(c, EndpointKey(path, verb)) + 1
              && Count(r, DailyKey(today)) == Count(c, DailyKey(today)) + 1
    ensures forall k :: k != TotalKey && k != EndpointKey(path, verb) && k != DailyKey(today) ==> Count(r, k) == Count(c, k)
  {
    if StartsWith(path, ApiPrefix) then
      CounterKeysDistinct(path, verb, today);
      Bump(Bump(Bump(c, TotalKey), EndpointKey(path, verb)), DailyKey(today))
    else c
  }

  // ----- DAC audit -----

  /** The object `process_view` resolved, if any. */
  datatype Resolution = NotResolved | ResolvedObject(target: Option<Target>)

  /** `request._dac_audit`. */
  datatype AuditMeta = AuditMeta(path: string, httpMethod: string, viewName: string, resolved: Resolution)

  /** What calling the view's `get_object()` gives: nothing to call (no
      view instance or no callable `get_object`), an exception, or an
      object, given by its target (None when its content-type lookup
      raises later). */
  datatype GetObject = NothingToCall | Raised | Returned(target: Option<Target>)

  /** `DACAuditMiddleware.process_view`: the request metadata, with the
      object kept only when `get_object()` returned one. */
  function ProcessView(path: string, verb: string, viewName: string, got: GetObject): (m: AuditMeta)
    ensures m.path == path && m.httpMethod == verb && m.viewName == viewName
    ensures m.resolved.ResolvedObject? <==> got.Returned?
    ensures got.Returned? ==> m.resolved.target == got.target
  {
    var resolved := if got.Returned? then ResolvedObject(got.target) else NotResolved;
    AuditMeta(path, verb, viewName, resolved)
  }

  /** The response the view produced; the middleware hands it on as is. */
  datatype Response = Response(statusCode: int, body: string)

  /** `allowed` of the audit row. The second test is implied by the first. */
  function Allowed(status: int): (r: bool)
    ensures r <==> status < 400
  {
    status < 400 && status != 403
  }

  /** The row `process_response` writes. */
  function AuditRow(meta: AuditMeta, user: Option<User>, requestPath: string, requestMethod: string,
                    status: int, now: int): (a: AuditLog)
    ensures a.allowed <==> status < 400
    ensures a.statusCode == Some(status) && a.detail == "" && a.created == now
    ensures a.user.Some? <==> user.Some? && user.value.isAuthenticated
    ensures a.user.Some? ==> a.user.value == user.value.id
    ensures a.contentType.Some? <==> a.objectId.Some?
    ensures a.contentType.Some? <==> meta.resolved.ResolvedObject? && meta.resolved.target.Some?
    ensures a.path == (if meta.path != "" then meta.path else requestPath)
    ensures a.httpMethod == (if meta.httpMethod != "" then meta.httpMethod else requestMethod)
  {
    var who := if user.Some? && user.value.isAuthenticated then Some(user.value.id) else None;
    var (ct, oid) := match meta.resolved
      case ResolvedObject(Some(t)) => (Some(t.contentType), Some(t.objectId))
      case _ => (None, None);
    AuditLog(
      who,
      if meta.path != "" then meta.path else requestPath,
      if meta.httpMethod != "" then meta.httpMethod else requestMethod,
      meta.viewName,
      ct, oid,
      Allowed(status),
      Some(status),
      "",
      now)
  }

  /** `DACAuditMiddleware.process_response`. Without metadata nothing is
      written; when creating the row raises (`createFails`) the error is
      swallowed. The response is returned untouched in every case. */
  function ProcessResponse(log: seq<AuditLog>, meta: Option<AuditMeta>, user: Option<User>,
                           requestPath: string, requestMethod: string,
                           resp: Response, createFails: bool, now: int): (r: (seq<AuditLog>, Response))
    ensures r.1 == resp
    ensures meta.None? || createFails ==> r.0 == log
    ensures meta.Some? && !createFails ==>
              && |r.0| == |log| + 1 && r.0[..|log|] == log
              && r.0[|log|].allowed == (resp.statusCode < 400)
              && r.0[|log|].statusCode == Some(resp.statusCode)
              && r.0[|log|] == AuditRow(meta.value, user, requestPath, requestMethod, resp.statusCode, now)
  {
    match meta
    case None => (log, resp)
    case Some(m) =>
      if createFails then (log, resp)
      else
        var out := log + [AuditRow(m, user, requestPath, requestMethod, resp.statusCode, now)];
        assert out[..|log|] == log;
        (out, resp)
  }

  /** A rejected request (403 or any other 4xx/5xx) is logged as denied,
      and an anonymous one without a user. */
  lemma DeniedResponsesLoggedDenied(meta: AuditMeta, requestPath: string, requestMethod: string, status: int, now: int)
    requires status == 403 || status >= 400
    ensures !AuditRow(meta, Some(Anonymous), requestPath, requestMethod, status, now).allowed
    ensures AuditRow(meta, Some(Anonymous), requestPath, requestMethod, status, now).user.None?
  {
  }
}
