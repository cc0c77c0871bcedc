/** The project-wide exception handler: it reshapes the REST framework's
    error responses into `{status, code, message[, errors]}` and turns an
    exception the framework does not handle into a 500 reply.

    The framework's own handler is a parameter: its result is given as a
    `Handled` response or as `Unhandled`. Logging is left out. */
module Exceptions {
  import opened Wrappers

  /** The JSON values a response body holds. */
  datatype Json =
    | JStr(s: string)
    | JInt(n: int)
    | JList(items: seq<Json>)
    | JObject(fields: map<string, Json>)

  /** What the framework's default handler returned: None for an
      exception it does not handle (carrying `str(exc)`), or a response
      whose data is a JSON object or list. */
  datatype FrameworkResult = Unhandled(text: string) | Handled(status: int, data: Json)

  /** The reply, or `HandlerRaises` when reading `data['detail']` itself
      fails (a list that holds the string "detail"). */
  datatype Outcome = Reply(status: int, body: map<string, Json>) | HandlerRaises

  const ErrorStatus: Json := JStr("error")
  const InternalMessage: string := "Error interno del servidor."
  const ValidationMessage: string := "Error de validación"

  /** Python's `"detail" in data` for a dict or a list. */
  predicate HasDetail(data: Json) {
    match data
    case JObject(m) => "detail" in m
    case JList(items) => JStr("detail") in items
    case _ => false
  }

  /** `custom_exception_handler`. */
  function CustomExceptionHandler(res: FrameworkResult): (r: Outcome)
    ensures res.Unhandled? ==>
              r == Reply(500, map["status" := ErrorStatus, "message" := JStr(InternalMessage),
                                  "detail" := JStr(res.text), "code" := JInt(500)])
    ensures r.HandlerRaises? <==> res.Handled? && res.data.JList? && HasDetail(res.data)
    ensures res.Handled? && r.Reply? ==>
              && r.status == res.status
              && "code" in r.body && r.body["code"] == JInt(res.status)
              && "status" in r.body && r.body["status"] == ErrorStatus
              && "message" in r.body
    ensures res.Handled? && res.data.JObject? && HasDetail(res.data) ==>
              r.Reply? && r.body.Keys == {"status", "code", "message"}
              && r.body["message"] == res.data.fields["detail"]
    ensures res.Handled? && !HasDetail(res.data) ==>
              r.Reply? && r.body.Keys == {"status", "code", "message", "errors"}
              && r.body["message"] == JStr(ValidationMessage) && r.body["errors"] == res.data
  {
    match res
    case Unhandled(text) =>
      Reply(500, map["status" := ErrorStatus, "message" := JStr(InternalMessage),
                     "detail" := JStr(text), "code" := JInt(500)])
    case Handled(status, data) =>
      var custom := map["status" := ErrorStatus, "code" := JInt(status)];
      if HasDetail(data) then
        match data
        case JObject(m) => Reply(status, custom["message" := m["detail"]])
        case _ => HandlerRaises
      else
        Reply(status, custom["message" := JStr(ValidationMessage)]["errors" := data])
  }

  /** The status and `code` of every reply agree, and a handled error's
      original data can be read back from the reply: its `detail` from
      `message`, anything else whole from `errors`. */
  lemma ReshapeRecoversData(status: int, data: Json)
    requires data.JObject? || data.JList?
    requires CustomExceptionHandler(Handled(status, data)).Reply?
    ensures var r := CustomExceptionHandler(Handled(status, data));
            && r.body["code"] == JInt(r.status)
            && ("errors" in r.body <==> !HasDetail(data))
            && ("errors" in r.body ==> r.body["errors"] == data)
            && (!("errors" in r.body) ==> data.JObject? && r.body["message"] == data.fields["detail"])
  {
  }

  /** Whatever went wrong, the reply is marked as an error and carries a
      code equal to its status; only unhandled exceptions expose `detail`. */
  lemma EveryReplyIsAnError(res: FrameworkResult)
    requires CustomExceptionHandler(res).Reply?
    ensures var r := CustomExceptionHandler(res);
            && r.body["status"] == ErrorStatus
            && r.body["code"] == JInt(r.status)
            && ("detail" in r.body <==> res.Unhandled?)
  {
  }
}
