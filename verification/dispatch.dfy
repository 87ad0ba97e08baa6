/**
  Function dispatch (`AletheiaService._execute`): the request's function name
  selects one of two analysis handlers, an unknown name yields an error
  response, and every exception a handler raises is turned into the response's
  `error` field.
*/
module Dispatch {
  import opened Basics
  import opened Messages

  /** The handlers the table can select. */
  datatype HandlerKind = AutoHandler | EffnetHandler

  /** Name-to-handler table of the service. */
  const HandlerTable: map<string, HandlerKind> :=
    map["auto" := AutoHandler, "effnetb0_predict" := EffnetHandler]

  const UnsupportedMessage := "given function not supported"

  /** The parameter the effnetb0 handler is given. */
  const ModelNameParameter := "model_name"

  /**
    The analysis code the service calls, opaque here:
    - `auto`: `util.parse_dict(auto_service.auto_method(file))`;
    - `effnet`: `util.parse_dict(ml_service.effnetb0_predict(file, model))`;
    - `getParameter`: `util.get_parameter(steg_service_info, name, request)`.
    Each either returns or raises.
  */
  datatype Handlers = Handlers(
    auto: Bytes -> Try<Response>,
    effnet: (Bytes, string) -> Try<Response>,
    getParameter: (string, Request) -> Try<string>)

  /** One invocation of an analysis handler, with the arguments it received. */
  datatype Call = AutoCall(file: Bytes) | EffnetCall(file: Bytes, modelName: string)

  /** What `_execute` did: the handler invocations it made and its response. */
  datatype Dispatched = Dispatched(calls: seq<Call>, response: Response)

  /** The `except Exception as ex` clause: an exception becomes `error = str(ex)`. */
  function Absorb(attempt: Try<Response>): (r: Response)
    ensures attempt.Ok? ==> r == attempt.value
    ensures attempt.Raised? ==> r == ErrorResponse(attempt.message)
  {
    match attempt
    case Ok(response) => response
    case Raised(message) => ErrorResponse(message)
  }

  /** `_execute(request, context)`, with the handler calls it makes recorded. */
  function ExecuteFunction(request: Request, handlers: Handlers): (d: Dispatched)
    ensures |d.calls| <= 1
    ensures request.functionName !in HandlerTable ==>
              d.calls == [] && d.response.error == UnsupportedMessage
    ensures request.functionName in HandlerTable && HandlerTable[request.functionName] == AutoHandler ==>
              d.calls == [AutoCall(request.file)]
              && d.response == Absorb(handlers.auto(request.file))
    ensures request.functionName in HandlerTable && HandlerTable[request.functionName] == EffnetHandler ==>
              match handlers.getParameter(ModelNameParameter, request)
              case Raised(message) => d.calls == [] && d.response == ErrorResponse(message)
              case Ok(model) =>
                d.calls == [EffnetCall(request.file, model)]
                && d.response == Absorb(handlers.effnet(request.file, model))
  {
    match request.functionName
    case "auto" =>
      Dispatched([AutoCall(request.file)], Absorb(handlers.auto(request.file)))
    case "effnetb0_predict" =>
      (match handlers.getParameter(ModelNameParameter, request)
       case Raised(message) => Dispatched([], ErrorResponse(message))
       case Ok(model) =>
         Dispatched([EffnetCall(request.file, model)], Absorb(handlers.effnet(request.file, model))))
    case _ =>
      Dispatched([], ErrorResponse(UnsupportedMessage))
  }

  /** The handler kind a call belongs to. */
  function KindOf(call: Call): HandlerKind {
    match call
    case AutoCall(_) => AutoHandler
    case EffnetCall(_, _) => EffnetHandler
  }

  /**
    A handler is invoked only when the table knows the name, and then only the
    handler the table names for it.
  */
  lemma OnlyTheTabledHandlerRuns(request: Request, handlers: Handlers)
    ensures forall call :: call in ExecuteFunction(request, handlers).calls ==>
              request.functionName in HandlerTable
              && KindOf(call) == HandlerTable[request.functionName]
              && call.file == request.file
  {
  }

  /**
    An unknown function name yields exactly the "not supported" error response
    and no handler runs, whatever the handlers would have done.
  */
  lemma UnsupportedFunctionInvokesNothing(request: Request, handlers: Handlers, other: Handlers)
    requires request.functionName !in HandlerTable
    ensures ExecuteFunction(request, handlers) == Dispatched([], ErrorResponse(UnsupportedMessage))
    ensures ExecuteFunction(request, handlers) == ExecuteFunction(request, other)
  {
  }

  /**
    No exception escapes `_execute`: whenever the handler that was reached
    raised, its message is the response's `error` and there are no result fields.
  */
  lemma HandlerExceptionBecomesError(request: Request, handlers: Handlers)
    ensures request.functionName == "auto" && handlers.auto(request.file).Raised? ==>
              ExecuteFunction(request, handlers).response
                == ErrorResponse(handlers.auto(request.file).message)
    ensures request.functionName == "effnetb0_predict" ==>
              var p := handlers.getParameter(ModelNameParameter, request);
              (p.Raised? ==> ExecuteFunction(request, handlers).response == ErrorResponse(p.message))
              && (p.Ok? && handlers.effnet(request.file, p.value).Raised? ==>
                    ExecuteFunction(request, handlers).response
                      == ErrorResponse(handlers.effnet(request.file, p.value).message))
  {
  }

  /** A handler that returns normally has its response passed on unchanged. */
  lemma HandlerResponsePassedThrough(request: Request, handlers: Handlers)
    ensures request.functionName == "auto" && handlers.auto(request.file).Ok? ==>
              ExecuteFunction(request, handlers).response == handlers.auto(request.file).value
    ensures request.functionName == "effnetb0_predict" ==>
              var p := handlers.getParameter(ModelNameParameter, request);
              p.Ok? && handlers.effnet(request.file, p.value).Ok? ==>
                ExecuteFunction(request, handlers).response == handlers.effnet(request.file, p.value).value
  {
  }
}
