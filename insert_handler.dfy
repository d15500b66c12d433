/**
 * The `ef_insert_data_component_v2` edge function: the request handler's
 * OPTIONS / authorization / catch-all branches, and `save_to_db`, which
 * validates the batch, hydrates and prepares every item, checks the server
 * secret and hands the prepared records to the database procedure.
 *
 * Hydration from JSON, the database query behind the dependency fetch, the
 * procedure call and the environment lookup are collaborators in `Env`; a
 * collaborator that throws is a `None` or `Failure` outcome.
 */
module InsertHandler {
  import opened Wrappers
  import opened JsValue
  import opened Text
  import opened Errors
  import opened Components
  import opened Dependencies
  import opened Responses
  import opened Prepare
  import FetchPartials

  /** What the procedure call answers: an error message if it failed, its data and its HTTP status. */
  datatype RpcResponse = RpcResponse(error: Option<string>, data: Value, status: int)

  datatype Env = Env(
    messages: Messages,
    hydrate: Value -> Option<DataComponent>,
    query: FetchPartials.Query,
    extract: Extractor,
    policy: DuplicatePolicy,
    evaluate: DataComponent -> EvalResponse,
    flatten: DataComponent -> Row,
    toPlain: Value -> string,
    serverSecret: Option<string>,
    rpc: (seq<Record>, string) -> RpcResponse)

  /** An incoming request: its HTTP method, its Authorization header, and its body parsed as JSON (`None` when that throws). */
  datatype Request = Request(verb: string, authorization: Option<string>, json: Option<Value>)

  /** What `save_to_db` does: answer with a response, or throw. */
  datatype Outcome = Responded(response: Response) | Threw(failure: Failure)

  /** The maximum number of components in one batch. */
  const MaxBatch := 10

  /** The preparation pipeline, with the fetch bound to the database query. */
  function PipelineOf(env: Env): Pipeline
  {
    Pipeline(env.extract, ids => FetchPartials.GetDataComponentsByIdAndVersion(ids, env.query),
             env.policy, env.evaluate, env.flatten, env.toPlain)
  }

  /** `const { batch } = payload`: destructuring null or undefined throws; other values without the field give undefined. */
  function BatchOf(payload: Value): Option<Value>
  {
    match payload
    case Undefined => None
    case Null => None
    case Obj(fields) => Some(Get(fields, "batch"))
    case _ => Some(Undefined)
  }

  /** The validation error of a batch, if any: format first, then count. */
  function BatchError(batch: Value): (e: Option<ErrorCode>)
    ensures e == Some(ERR16_insert) <==> !batch.Arr?
    ensures e == Some(ERR17_insert) <==> batch.Arr? && (|batch.items| == 0 || |batch.items| > MaxBatch)
    ensures e.None? <==> batch.Arr? && 1 <= |batch.items| <= MaxBatch
  {
    var invalidFormat := !Truthy(batch) || !batch.Arr?;
    var invalidCount := !invalidFormat && (|batch.items| == 0 || |batch.items| > MaxBatch);
    if invalidFormat || invalidCount then
      Some(if invalidFormat then ERR16_insert else ERR17_insert)
    else
      None
  }

  /** `batch.map(hydrate)`: every item hydrated in order, or `None` when one of them throws. */
  function HydrateAll(items: seq<Value>, hydrate: Value -> Option<DataComponent>): (r: Option<seq<DataComponent>>)
    ensures r.Some? <==> forall i :: 0 <= i < |items| ==> hydrate(items[i]).Some?
    ensures r.Some? ==> |r.value| == |items| && forall i :: 0 <= i < |items| ==> hydrate(items[i]) == Some(r.value[i])
  {
    if items == [] then Some([])
    else
      match hydrate(items[0])
      case None => None
      case Some(c) =>
        match HydrateAll(items[1..], hydrate)
        case None => None
        case Some(rest) => Some([c] + rest)
  }

  /** `Promise.all` of the preparations, as a sequential map: all records in batch order, or a failure. */
  function PrepareAll(components: seq<DataComponent>, p: Pipeline): (r: Result<seq<Record>, Failure>)
    ensures r.Success? <==> forall i :: 0 <= i < |components| ==> InsertArgsFor(components[i], p).Success?
    ensures r.Success? ==>
      |r.value| == |components|
      && forall i :: 0 <= i < |components| ==> InsertArgsFor(components[i], p) == Success(r.value[i])
  {
    if components == [] then Success([])
    else
      match InsertArgsFor(components[0], p)
      case Failure(e) => Failure(e)
      case Success(first) =>
        match PrepareAll(components[1..], p)
        case Failure(e) => Failure(e)
        case Success(rest) => Success([first] + rest)
  }

  /** The message shown for a database error: its own if it starts with "ERR", the generic one otherwise. */
  function PublicMessage(message: string, messages: Messages): string
  {
    if StartsWith(message, "ERR") then message else messages(ERR19_insert)
  }

  /** `response.status || 500`. */
  function StatusOr500(status: int): int
  {
    if status == 0 then 500 else status
  }

  function ErrorResponse(status: int, code: ErrorCode, messages: Messages): Response
  {
    Respond(status, ErrorOnly(messages(code)))
  }

  /** The response to the procedure's answer. */
  function RpcOutcome(response: RpcResponse, messages: Messages): Response
  {
    match response.error
    case Some(message) => Respond(StatusOr500(response.status), ErrorOnly(PublicMessage(message, messages)))
    case None => Respond(200, DataOnly(response.data))
  }

  function SaveToDb(payload: Value, env: Env): Outcome
  {
    match BatchOf(payload)
    case None => Threw(Unexpected)
    case Some(batch) =>
      match BatchError(batch)
      case Some(code) => Responded(ErrorResponse(400, code, env.messages))
      case None =>
        match HydrateAll(batch.items, env.hydrate)
        case None => Threw(Unexpected)
        case Some(components) =>
          match PrepareAll(components, PipelineOf(env))
          case Failure(e) => Threw(e)
          case Success(records) =>
            if env.serverSecret.None? || env.serverSecret.value == "" then
              Responded(ErrorResponse(500, ERR18_insert, env.messages))
            else
              Responded(RpcOutcome(env.rpc(records, env.serverSecret.value), env.messages))
  }

  /** The request handler. */
  function HandleInsert(request: Request, env: Env): Response
  {
    if request.verb == "OPTIONS" then
      Response(200, Text("ok"), CorsHeadersSansContentType)
    else if request.authorization.None? || request.authorization.value == "" then
      ErrorResponse(401, ERR28, env.messages)
    else
      match request.json
      case None => ErrorResponse(500, ERR29_insert, env.messages)
      case Some(payload) =>
        match SaveToDb(payload, env)
        case Threw(_) => ErrorResponse(500, ERR29_insert, env.messages)
        case Responded(response) => response
  }

  // ---------------------------------------------------------------- properties

  /**
   * A missing or non-array batch is refused with 400 and ERR16; an array of
   * length 0 or above 10 with 400 and ERR17; the format check wins.
   */
  lemma BatchShapeRefused(payload: Value, env: Env)
    requires BatchOf(payload).Some?
    ensures !BatchOf(payload).value.Arr? ==>
      SaveToDb(payload, env) == Responded(Response(400, Error(400, env.messages(ERR16_insert)), CorsHeaders))
    ensures BatchOf(payload).value.Arr? && (|BatchOf(payload).value.items| == 0 || |BatchOf(payload).value.items| > MaxBatch) ==>
      SaveToDb(payload, env) == Responded(Response(400, Error(400, env.messages(ERR17_insert)), CorsHeaders))
  {
  }

  /** Without a `batch` field, or with a falsy one, the request is a format error. */
  lemma MissingBatchIsFormatError(fields: map<string, Value>, env: Env)
    requires !Truthy(Get(fields, "batch"))
    ensures SaveToDb(Obj(fields), env) == Responded(Response(400, Error(400, env.messages(ERR16_insert)), CorsHeaders))
  {
  }

  /** A batch of 1 to 10 items passes validation and every item is hydrated and prepared. */
  lemma ValidBatchIsPrepared(items: seq<Value>, env: Env)
    requires 1 <= |items| <= MaxBatch
    ensures SaveToDb(Obj(map["batch" := Arr(items)]), env).Threw? <==>
      (HydrateAll(items, env.hydrate).None?
       || PrepareAll(HydrateAll(items, env.hydrate).value, PipelineOf(env)).Failure?)
  {
    assert Get(map["batch" := Arr(items)], "batch") == Arr(items);
    assert BatchOf(Obj(map["batch" := Arr(items)])) == Some(Arr(items));
    assert BatchError(Arr(items)).None?;
  }

  /**
   * The secret is checked after preparation and before the procedure: a
   * failed preparation throws even without a secret, and without a secret
   * the procedure is never called.
   */
  lemma SecretCheckedAfterPreparation(payload: Value, env: Env, rpc': (seq<Record>, string) -> RpcResponse)
    requires BatchOf(payload).Some? && BatchError(BatchOf(payload).value).None?
    requires HydrateAll(BatchOf(payload).value.items, env.hydrate).Some?
    ensures var prepared := PrepareAll(HydrateAll(BatchOf(payload).value.items, env.hydrate).value, PipelineOf(env));
      && (prepared.Failure? ==> SaveToDb(payload, env) == Threw(prepared.error))
      && (prepared.Success? && (env.serverSecret.None? || env.serverSecret == Some("")) ==>
            SaveToDb(payload, env) == Responded(Response(500, Error(500, env.messages(ERR18_insert)), CorsHeaders))
            && SaveToDb(payload, env) == SaveToDb(payload, env.(rpc := rpc')))
  {
  }

  /** A database error message is shown only when it starts with "ERR"; any other is replaced by ERR19. */
  lemma PublicMessageRemap(message: string, messages: Messages)
    ensures |message| >= 3 && message[..3] == "ERR" ==> PublicMessage(message, messages) == message
    ensures !(|message| >= 3 && message[..3] == "ERR") ==> PublicMessage(message, messages) == messages(ERR19_insert)
  {
  }

  /**
   * A procedure error is answered with its status, or 500 when the status
   * is 0; a status below 400 cannot carry an error, so it ends as 500 with
   * ERR20. Success answers 200 with the procedure's data.
   */
  lemma RpcOutcomeStatus(response: RpcResponse, messages: Messages)
    ensures response.error.Some? && (response.status == 0 || response.status >= 400) ==>
      RpcOutcome(response, messages)
        == Response(StatusOr500(response.status),
                    Error(StatusOr500(response.status), PublicMessage(response.error.value, messages)), CorsHeaders)
    ensures response.error.Some? && 0 < response.status < 400 ==> RpcOutcome(response, messages) == Response(500, Error(500, MismatchMessage), CorsHeaders)
    ensures response.error.None? && response.data != Undefined ==>
      RpcOutcome(response, messages) == Response(200, Data(response.data), CorsHeaders)
  {
  }

  /** OPTIONS is answered "ok" before authorization; no Authorization header gives 401 with ERR28; a throw gives 500 with ERR29. */
  lemma HandlerBranches(request: Request, env: Env)
    ensures request.verb == "OPTIONS" ==> HandleInsert(request, env) == Response(200, Text("ok"), CorsHeadersSansContentType)
    ensures request.verb != "OPTIONS" && request.authorization.None? ==>
      HandleInsert(request, env) == Response(401, Error(401, env.messages(ERR28)), CorsHeaders)
    ensures (request.verb != "OPTIONS" && request.authorization.Some? && request.authorization.value != ""
             && (request.json.None? || SaveToDb(request.json.value, env).Threw?)) ==>
      HandleInsert(request, env) == Response(500, Error(500, env.messages(ERR29_insert)), CorsHeaders)
  {
  }

  /** Every handler response other than the OPTIONS answer carries the JSON CORS headers and a status at or above 400 for errors. */
  lemma HandlerResponsesAreWellFormed(request: Request, env: Env)
    requires request.verb != "OPTIONS"
    ensures HandleInsert(request, env).headers == CorsHeaders
    ensures HandleInsert(request, env).body.Error? <==> HandleInsert(request, env).status >= 400
  {
  }
}
