/**
 * `respond`: builds the JSON response of an edge function from a status and
 * either data or an error text, forcing a 500 when the two disagree.
 */
module Responses {
  import opened Wrappers
  import opened JsValue

  type Headers = seq<(string, string)>

  const CorsHeadersSansContentType: Headers := [
    ("Access-Control-Allow-Origin", "*"),
    ("Access-Control-Allow-Headers", "authorization, x-client-info, apikey, content-type")
  ]

  const CorsHeaders: Headers := CorsHeadersSansContentType + [("Content-Type", "application/json")]

  const MismatchMessage := "ERR20. Internal server error - mismatched response and status code"

  /** A response body: the data itself, the error shape `{code, message}`, or plain text. */
  datatype Body = Data(value: Value) | Error(code: int, message: string) | Text(text: string)

  datatype Response = Response(status: int, body: Body, headers: Headers)

  /** The `{ ef_data }` or `{ ef_error }` argument; `Undefined` / `None` stand for an absent field. */
  datatype EfResponse = EfResponse(ef_data: Value, ef_error: Option<string>)

  function DataOnly(data: Value): EfResponse { EfResponse(data, None) }

  function ErrorOnly(message: string): EfResponse { EfResponse(Undefined, Some(message)) }

  /** The body chosen by status: data below 400, the error text from 400 on, if present. */
  function ChosenBody(status: int, resp: EfResponse): Option<Value>
  {
    if status < 400 then
      (if resp.ef_data != Undefined then Some(resp.ef_data) else None)
    else
      (if resp.ef_error.Some? then Some(Str(resp.ef_error.value)) else None)
  }

  function Respond(status: int, resp: EfResponse): (r: Response)
    ensures r.status == status || r.status == 500
    ensures r.headers == CorsHeaders
    ensures r.body.Error? <==> r.status >= 400
    ensures r.body.Error? ==> r.body.code == r.status
    ensures status < 400 && resp.ef_data != Undefined ==> r == Response(status, Data(resp.ef_data), CorsHeaders)
    ensures status >= 400 && resp.ef_error.Some? ==>
              r == Response(status, Error(status, resp.ef_error.value), CorsHeaders)
    ensures (if status < 400 then resp.ef_data == Undefined else resp.ef_error.None?) ==>
              r == Response(500, Error(500, MismatchMessage), CorsHeaders)
  {
    var (finalStatus, body) :=
      match ChosenBody(status, resp)
      case None => (500, Str(MismatchMessage))
      case Some(b) => (status, b);
    if finalStatus >= 400 then
      Response(finalStatus, Error(finalStatus, body.s), CorsHeaders)
    else
      Response(finalStatus, Data(body), CorsHeaders)
  }

  /** Below 400 the error text is ignored; from 400 on the data is ignored. */
  lemma RespondIgnoresOtherField(status: int, data: Value, data': Value, error: Option<string>, error': Option<string>)
    ensures status < 400 ==> Respond(status, EfResponse(data, error)) == Respond(status, EfResponse(data, error'))
    ensures status >= 400 ==> Respond(status, EfResponse(data, error)) == Respond(status, EfResponse(data', error))
  {
  }
}
