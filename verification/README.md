# Aletheia request engine — a Dafny model

This project models the deterministic decision logic of the Aletheia
steganalysis gRPC service:

- **`AletheiaService.Execute`** (module `Deadline`): the effective timeout
  (the request's `request_timeout_sec`, or the default of 5 seconds when it is
  0), the `task` wrapper that runs `_execute` on a worker and turns an
  `Exception` into status INTERNAL plus an empty response, and the polling loop
  that races the worker against the deadline and the client's liveness.
  Time is counted in ticks of one polling quantum (the loop's 0.01 s sleep,
  so 100 ticks per second). What the loop sees at tick `k` is a `Sample`
  (client active?, worker's response stored yet?), and the loop is a walk
  over the trace of samples. Liveness is checked before readiness on every
  sample. The loop ends in one of three ways: a disconnect (empty response),
  a completion (the worker's response, unchanged), or a timeout (empty
  response, status DEADLINE_EXCEEDED, details "Request timeout exceeded after
  N seconds"). `Poll` is the recursive reference definition of the loop, and
  `Execute` is the loop itself, proved equal to it. `WorkerTrace` describes a
  worker that stores its response at a given tick, so the lemmas can talk
  about handlers that finish before or after the deadline.
- **`AletheiaService._execute`** (module `Dispatch`): the table from function
  name to handler (`"auto"`, `"effnetb0_predict"`), the "given function not
  supported" error for any other name, and the conversion of a handler's
  `Exception` into the response's `error` field. The analysis handlers,
  `util.parse_dict` and `util.get_parameter` are opaque function parameters
  that either return or raise an `Exception`. `_execute` also records which handler it
  invoked and with which arguments.
- **`ServerContext`** (module `ServerContext`): the models path default
  `"aletheia-models"`, and `load_models`, which keeps the directory entries
  ending in `.h5` (case-sensitive) and keys each one by the name without its
  last three characters. `os.listdir` is a function parameter that may raise.
  Each model handle `NN` is represented only by its constructor arguments.
- **`Decimal`**: the decimal rendering of an integer used in the timeout
  details message, and the parser that reads it back.

An `Exception` raised by an analysis handler does not produce an INTERNAL
status: `_execute` catches it and returns it as the `error` field of a normal
response. INTERNAL is set only when `_execute` itself raises outside its
`try` block.

## Model

| member | source | states |
|---|---|---|
| `Deadline.EffectiveTimeout` | server.py:61 | the effective timeout is the requested one when nonzero and the default 5 when zero, so it is never 0 |
| `Deadline.Poll` | server.py:80-94 | the race from a given tick (its timeout result is `TimedOutExecution`, server.py:91-94): a disconnect is reported at a tick inside the deadline where the client is inactive after only quiet samples, with an empty response and stop set; a completion is reported at a tick inside the deadline where the client is active and the slot holds exactly the returned response; a timeout happens only after every sample up to the deadline was quiet, and gives an empty response, DEADLINE_EXCEEDED and the details message |
| `Deadline.Execute` | server.py:58-94 | the loop computes the reference race for the request's effective timeout; it times out exactly when every sample before the deadline tick was quiet, and any other outcome is decided at a tick inside the deadline |
| `Deadline.TimeoutDetailsNamesTimeout` | server.py:92 | the deadline details message names the effective timeout, which can be read back from it |
| `Deadline.DisconnectCheckedBeforeReadiness` | server.py:80-87 | a client seen inactive inside the deadline gets an empty response at that tick, even when the worker's response is stored on the same sample |
| `Deadline.ReadyResponseReturnedVerbatim` | server.py:86-87 | with the client active and the response stored on a sample inside the deadline, that response object is returned unchanged |
| `Deadline.NonPositiveTimeoutSkipsLoop` | server.py:80-94 | a non-positive effective timeout gives the deadline-exceeded result without reading any sample, whatever the trace |
| `Deadline.ZeroTimeoutUsesDefault` | server.py:61-92 | a zero request timeout times out only after 500 quiet samples (5 seconds), with details naming 5 seconds, and a first sample that shows a disconnect or a response is never a timeout |
| `Deadline.RunTask` | server.py:65-73 | the worker wrapper fills the slot and sets stop whether `_execute` returned or raised an `Exception`; a normal return is stored as is with no status, and an `Exception` stores an empty response with INTERNAL and the exception text |
| `Deadline.Worker` | server.py:65-67 | the worker running `_execute` stores `_execute`'s response, sets no status and sets stop |
| `Deadline.TimeoutDetails` | server.py:92 | the deadline details text begins "Request timeout exceeded after " and ends " seconds", with the timeout in between |
| `Deadline.WorkerInsideDeadlineAnswers` | server.py:65-87 | a worker that stores its response before the deadline while the client stays active has that response returned at the tick it was stored |
| `Deadline.WorkerPastDeadlineTimesOut` | server.py:80-94 | a worker that has not stored its response by the deadline yields deadline exceeded when the client is active at every tick before the deadline, whenever the worker finishes and whatever the client does afterwards |
| `Deadline.DisconnectIsPrompt` | server.py:80-84 | a client that leaves before the worker finishes is answered at the tick the disconnect is seen, without waiting for the worker |
| `Deadline.CrashedWorkerStillAnswers` | server.py:65-87 | a worker that raised sets INTERNAL with the exception text and its empty response is still returned to an active client inside the deadline |
| `Deadline.StopSignalledOnEveryExit` | server.py:72-94 | stop is set on every exit: by the loop on disconnect and timeout, by the worker's finally block when the loop returns its response |
| `Deadline.ServedResponseIsDispatchResponse` | server.py:58-108 | a worker finishing inside the effective deadline with an active client delivers the dispatch response, and an unknown function name reaches the client as the "not supported" error |
| `Dispatch.Absorb` | server.py:107-108 | a handler that returns gives its response, and one that raises an `Exception` gives a response whose error is the exception text |
| `Dispatch.ExecuteFunction` | server.py:96-108 | at most one handler is invoked; an unknown name invokes none and answers "given function not supported"; "auto" invokes only the auto handler on the file; "effnetb0_predict" reads `model_name` first and invokes only the ML handler with the file and that name, or none if reading it raised |
| `Dispatch.OnlyTheTabledHandlerRuns` | server.py:100-106 | every handler invocation belongs to the handler the table names for the request's function, and receives the request's file |
| `Dispatch.UnsupportedFunctionInvokesNothing` | server.py:105-106 | an unknown function name yields exactly the "not supported" error response, with no invocation, independently of the handlers |
| `Dispatch.HandlerExceptionBecomesError` | server.py:99-108 | whichever step raises an `Exception` (auto handler, parameter lookup, ML handler), its message becomes the response's error and the `Exception` does not escape |
| `Dispatch.HandlerResponsePassedThrough` | server.py:101-104 | a handler that returns normally has its response passed on unchanged |
| `ServerContext.ModelName` | server_context.py:21 | the key of a `.h5` file name followed by ".h5" is that file name, so it is the name's prefix of length three less |
| `ServerContext.JoinPath` | server_context.py:20 | a relative name joined to a directory not ending in "/" is the directory, "/", then the name |
| `ServerContext.LoadModels` | server_context.py:15-22 | using the case-sensitive suffix test `IsModelFile`/`EndsWith` (server_context.py:19), every listed `.h5` file has an entry under its key holding its joined path and the lazy flag, and every key plus ".h5" is a listed file |
| `ServerContext.ModelNameInjective` | server_context.py:19-21 | distinct `.h5` file names never share a key |
| `ServerContext.BareExtensionIsEmptyName` | server_context.py:19-21 | the file ".h5" is a model file with the empty key |
| `ServerContext.ModelNamesCount` | server_context.py:19-21 | a set of `.h5` file names has as many keys as files |
| `ServerContext.LoadModelsKeys` | server_context.py:18-22 | the registry's keys are exactly the keys of the listed `.h5` files, and every entry carries the lazy flag |
| `ServerContext.LoadModelsSize` | server_context.py:18-22 | the registry has as many entries as the listing has distinct `.h5` files |
| `ServerContext.UpperCaseExtensionIgnored` | server_context.py:19 | the suffix test is case-sensitive: "x.H5" contributes nothing while "a.h5" and ".h5" give keys "a" and "" |
| `ServerContext.ResolveModelsPath` | server_context.py:11-12 | the directory listed is the configured models path, or "aletheia-models" when none is given |
| `ServerContext.NewServerContext` | server_context.py:9-13 | with model handle construction taken to succeed, construction fails exactly when listing the resolved path (the given one, or "aletheia-models") raises, and then with that listing's own exception; otherwise the registry's keys are exactly the keys of that listing's `.h5` files, and every model lives at the resolved path joined with its key plus ".h5", with the lazy flag |
| `ServerContext.DefaultPathIsListed` | server_context.py:11-18 | with no models path the constructor's result depends only on the listing of "aletheia-models" |
| `ServerContext.DefaultPathModelLocations` | server_context.py:11-21 | with no models path, each model's path is "aletheia-models/" + key + ".h5" |
| `Decimal.IntToString` | server.py:92 | the rendering of an integer is non-empty and starts with "-" exactly when the integer is negative |
| `Decimal.NatToString` | server.py:92 | the rendering of a natural number is a non-empty digit string without a leading zero |
| `Decimal.DigitsValueOfNatToString` | server.py:92 | reading back the digits of a natural number gives that number |
| `Decimal.ParseIntOfIntToString` | server.py:92 | reading back the rendering of any integer, negative ones included, gives that integer |
| `Decimal.IntToStringInjective` | server.py:92 | distinct integers render differently, so the details message determines the timeout |

## Left out

- Threads, `threading.Event`, the thread pool and wall-clock time (server.py:21, 63, 75-78, 89): the worker and the clock are replaced by the sample trace. One loop iteration is idealised as exactly one 0.01 s tick, and interleavings are not modelled.
- Deadline.Execution: the model records only the status code and details that `Execute` itself sets. A worker that raises after the loop has already timed out can still overwrite DEADLINE_EXCEEDED with INTERNAL on the shared context. That race between threads is not modelled.
- Deadline.Worker: composes the wrapper with `_execute` assuming `_execute` returns. The log line at server.py:97 (`context.peer()` and `print`) sits outside `_execute`'s `try` and could raise. `RunTask` covers that case on its own, for any attempt.
- The logging `print` calls (server.py:59, 82, 97, 111; server_context.py:10): they have no effect on results.
- The protobuf service descriptor and `GetStegServiceInfo` (server.py:31-56, 110-112): static metadata with no decisions in it.
- `serve()` (server.py:114-146): environment parsing, ports, message-size options and gRPC bootstrap are process configuration.
- The analysis services, `util.parse_dict` and `util.get_parameter`: their code is not part of this model, so they are opaque functions that return or raise.
- `NN` model construction and lazy loading (`aletheialib_ext.models`): that code is not part of this model, so a model entry holds only its path and lazy flag.
- ServerContext.NewServerContext: assumes `NN(model_path, load_models_lazy)` never raises. An exception from it (for example from eager loading when `load_models_lazy` is false) would propagate out of `load_models` and the constructor (server_context.py:13, 21); the model does not represent that failure, because the `NN` code is not part of this model.
- Deadline.RunTask: `Raised` stands for an `Exception` subclass, the only kind server.py:68 catches. A `BaseException` such as `SystemExit` escapes the wrapper; only the `finally` runs, the slot stays `None`, and the loop ends by disconnect or deadline. That case is not modelled.
- Dispatch.HandlerExceptionBecomesError: `Raised` stands for an `Exception` subclass, the only kind server.py:107 catches. A `BaseException` raised by a handler propagates out of `_execute`; that case is not modelled.
- The insertion order of the `models` dict (server_context.py:16-21): a Dafny map has no order, and nothing in the core reads the order.
- `os.path.join` is modelled by `JoinPath` with the POSIX rule (separator "/"); the Windows rule with `\` separators is not modelled.
- Response field values are abstracted as strings. The real message carries typed prediction values.
- `request_timeout_sec` is modelled as an integer. Non-integral values and their formatting in the details message are not modelled.
