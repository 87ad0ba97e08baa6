/**
  The request engine of `AletheiaService.Execute`: the effective timeout, the
  worker wrapper that runs `_execute`, and the polling loop that races the
  worker against the deadline and the client's liveness.

  Time is counted in ticks of one polling quantum (the loop's 0.01 s sleep).
  What the loop observes at tick k is `trace(k)`: whether the client is still
  active, and whether the worker has stored its response by then.
*/
module Deadline {
  import opened Basics
  import opened Messages
  import Decimal
  import Dispatch

  /** The server's default deadline in seconds. */
  const MaxTimeout := 5

  /** Polling iterations per second: one per 0.01 s sleep. */
  const TicksPerSecond := 100

  const DeadlineMessagePrefix := "Request timeout exceeded after "
  const DeadlineMessageSuffix := " seconds"

  /** The requested timeout, with 0 standing for the server default. */
  function EffectiveTimeout(requested: int): (timeout: int)
    ensures requested != 0 ==> timeout == requested
    ensures requested == 0 ==> timeout == MaxTimeout
    ensures timeout != 0
  {
    if requested != 0 then requested else MaxTimeout
  }

  /** The first tick at which `elapsed < timeout` no longer holds. */
  function DeadlineTicks(timeout: int): int {
    timeout * TicksPerSecond
  }

  /** One observation of the loop: client liveness and the worker's slot. */
  datatype Sample = Sample(active: bool, ready: Option<Response>)

  /** Observation at every tick since the loop started. */
  type Trace = nat -> Sample

  /** A sample that lets the loop go round again. */
  predicate Quiet(s: Sample) {
    s.active && s.ready.None?
  }

  /** Every sample at ticks `from` to `to - 1` is quiet. */
  predicate QuietBetween(trace: Trace, from: nat, to: int) {
    forall j: nat :: from <= j < to ==> Quiet(trace(j))
  }

  /** Which way the race went, with the tick at which it was decided. */
  datatype Outcome = Disconnected(tick: nat) | Completed(tick: nat) | TimedOut

  /**
    What `Execute` produces: its return value, the status code and details it
    sets on the context itself, and whether it set `stop_event` itself.
  */
  datatype Execution = Execution(
    outcome: Outcome,
    response: Response,
    code: Option<StatusCode>,
    details: Option<string>,
    stopSet: bool)

  /** The details text of the deadline path. */
  function TimeoutDetails(timeout: int): (details: string)
    ensures |DeadlineMessagePrefix| + |DeadlineMessageSuffix| < |details|
    ensures details[..|DeadlineMessagePrefix|] == DeadlineMessagePrefix
    ensures details[|details| - |DeadlineMessageSuffix|..] == DeadlineMessageSuffix
  {
    DeadlineMessagePrefix + Decimal.IntToString(timeout) + DeadlineMessageSuffix
  }

  /** Reads back the timeout a deadline details text names. */
  function TimeoutNamedBy(details: string): Option<int> {
    var p := |DeadlineMessagePrefix|;
    var q := |DeadlineMessageSuffix|;
    if p + q <= |details|
       && details[..p] == DeadlineMessagePrefix
       && details[|details| - q..] == DeadlineMessageSuffix
    then Decimal.ParseInt(details[p..|details| - q])
    else None
  }

  /** The deadline details message names the effective timeout recoverably. */
  lemma TimeoutDetailsNamesTimeout(timeout: int)
    ensures TimeoutNamedBy(TimeoutDetails(timeout)) == Some(timeout)
  {
    var d := TimeoutDetails(timeout);
    var p := |DeadlineMessagePrefix|;
    var q := |DeadlineMessageSuffix|;
    assert d[..p] == DeadlineMessagePrefix;
    assert d[|d| - q..] == DeadlineMessageSuffix;
    assert d[p..|d| - q] == Decimal.IntToString(timeout);
    Decimal.ParseIntOfIntToString(timeout);
  }

  /** The return value and context effects of the deadline path. */
  function TimedOutExecution(timeout: int): Execution {
    Execution(TimedOut, EmptyResponse, Some(DeadlineExceeded), Some(TimeoutDetails(timeout)), true)
  }

  /**
    Reference definition of the polling loop, entered at tick `k`: liveness
    is checked before the worker's slot on each sample.
  */
  function Poll(trace: Trace, k: nat, deadline: int, timeout: int): (r: Execution)
    decreases deadline - k
    ensures r.outcome.Disconnected? ==>
              k <= r.outcome.tick < deadline
              && QuietBetween(trace, k, r.outcome.tick)
              && !trace(r.outcome.tick).active
              && r == Execution(r.outcome, EmptyResponse, None, None, true)
    ensures r.outcome.Completed? ==>
              k <= r.outcome.tick < deadline
              && QuietBetween(trace, k, r.outcome.tick)
              && trace(r.outcome.tick).active
              && trace(r.outcome.tick).ready == Some(r.response)
              && r.code.None? && r.details.None? && !r.stopSet
    ensures r.outcome.TimedOut? ==>
              QuietBetween(trace, k, deadline) && r == TimedOutExecution(timeout)
  {
    if deadline <= k then TimedOutExecution(timeout)
    else if !trace(k).active then Execution(Disconnected(k), EmptyResponse, None, None, true)
    else if trace(k).ready.Some? then Execution(Completed(k), trace(k).ready.value, None, None, false)
    else Poll(trace, k + 1, deadline, timeout)
  }

  /** The race as run for `request` from its first sample. */
  function Race(request: Request, trace: Trace): Execution {
    var timeout := EffectiveTimeout(request.requestTimeoutSec);
    Poll(trace, 0, DeadlineTicks(timeout), timeout)
  }

  /**
    The polling loop of `Execute`, for a request whose worker is observed
    through `trace`.
  */
  method Execute(request: Request, trace: Trace) returns (r: Execution)
    ensures r == Race(request, trace)
    ensures r.outcome.Disconnected? || r.outcome.Completed? ==>
              r.outcome.tick < DeadlineTicks(EffectiveTimeout(request.requestTimeoutSec))
              && QuietBetween(trace, 0, r.outcome.tick)
    ensures r.outcome.TimedOut? <==>
              QuietBetween(trace, 0, DeadlineTicks(EffectiveTimeout(request.requestTimeoutSec)))
  {
    var timeout := if request.requestTimeoutSec != 0 then request.requestTimeoutSec else MaxTimeout;
    var deadline := timeout * TicksPerSecond;
    var k: nat := 0;
    while k < deadline
      invariant QuietBetween(trace, 0, k)
      invariant Poll(trace, 0, deadline, timeout) == Poll(trace, k, deadline, timeout)
      decreases deadline - k
    {
      var sample := trace(k);
      if !sample.active {
        return Execution(Disconnected(k), EmptyResponse, None, None, true);
      }
      if sample.ready.Some? {
        return Execution(Completed(k), sample.ready.value, None, None, false);
      }
      k := k + 1;
    }
    r := Execution(TimedOut, EmptyResponse, Some(DeadlineExceeded),
                   Some(DeadlineMessagePrefix + Decimal.IntToString(timeout) + DeadlineMessageSuffix), true);
  }

  /** Liveness is checked first: a disconnect wins even over a ready response. */
  lemma DisconnectCheckedBeforeReadiness(trace: Trace, t: nat, deadline: int, timeout: int)
    requires t < deadline
    requires QuietBetween(trace, 0, t)
    requires !trace(t).active
    ensures Poll(trace, 0, deadline, timeout) == Execution(Disconnected(t), EmptyResponse, None, None, true)
  {
  }

  /** An active client and a ready slot inside the deadline: that response, unchanged. */
  lemma ReadyResponseReturnedVerbatim(trace: Trace, t: nat, deadline: int, timeout: int)
    requires t < deadline
    requires QuietBetween(trace, 0, t)
    requires trace(t).active && trace(t).ready.Some?
    ensures Poll(trace, 0, deadline, timeout)
              == Execution(Completed(t), trace(t).ready.value, None, None, false)
  {
  }

  /**
    A non-positive effective timeout times out without looking at a single
    sample.
  */
  lemma NonPositiveTimeoutSkipsLoop(request: Request, trace: Trace, other: Trace)
    requires EffectiveTimeout(request.requestTimeoutSec) <= 0
    ensures Race(request, trace) == TimedOutExecution(request.requestTimeoutSec)
    ensures Race(request, trace) == Race(request, other)
  {
  }

  /**
    A zero request timeout means the 5-second default: a timeout is reported
    only after 500 quiet samples, never at once.
  */
  lemma ZeroTimeoutUsesDefault(request: Request, trace: Trace)
    requires request.requestTimeoutSec == 0
    ensures Race(request, trace).outcome.TimedOut? ==> QuietBetween(trace, 0, 500)
    ensures Race(request, trace).outcome.TimedOut? ==>
              Race(request, trace).details == Some("Request timeout exceeded after 5 seconds")
    ensures !Quiet(trace(0)) ==> !Race(request, trace).outcome.TimedOut?
  {
    assert DeadlineTicks(EffectiveTimeout(0)) == 500;
    assert Decimal.DigitChar(5) == '5';
    assert Decimal.IntToString(5) == "5";
    assert TimeoutDetails(5) == "Request timeout exceeded after 5 seconds";
  }

  /** What the worker wrapper leaves behind. */
  datatype WorkerEffect = WorkerEffect(
    stored: Response,
    code: Option<StatusCode>,
    details: Option<string>,
    stopSet: bool)

  /**
    The `task` wrapper: stores what `_execute` returned, or, when it raised,
    an empty response plus status INTERNAL with the exception text. The slot
    is filled and `stop_event` set in every case; nothing propagates.
  */
  function RunTask(attempt: Try<Response>): (w: WorkerEffect)
    ensures w.stopSet
    ensures attempt.Ok? ==> w.stored == attempt.value && w.code.None? && w.details.None?
    ensures attempt.Raised? ==>
              w.stored == EmptyResponse && w.code == Some(Internal) && w.details == Some(attempt.message)
  {
    match attempt
    case Ok(response) => WorkerEffect(response, None, None, true)
    case Raised(message) => WorkerEffect(EmptyResponse, Some(Internal), Some(message), true)
  }

  /** The worker running `_execute` for `request` under the wrapper. */
  function Worker(request: Request, handlers: Dispatch.Handlers): (w: WorkerEffect)
    ensures w.stored == Dispatch.ExecuteFunction(request, handlers).response
    ensures w.code.None? && w.details.None? && w.stopSet
  {
    RunTask(Ok(Dispatch.ExecuteFunction(request, handlers).response))
  }

  /**
    The samples the loop takes when the client's liveness is `active` and the
    worker fills its slot with `stored` at tick `finish`.
  */
  function WorkerTrace(active: nat -> bool, finish: nat, stored: Response): Trace {
    (k: nat) => Sample(active(k), if finish <= k then Some(stored) else None)
  }

  /** The client is active at every tick before `to`. */
  predicate ActiveUntil(active: nat -> bool, to: nat) {
    forall j: nat :: j < to ==> active(j)
  }

  /** A worker that finishes inside the deadline, client live: its response. */
  lemma WorkerInsideDeadlineAnswers(
    active: nat -> bool, finish: nat, stored: Response, deadline: int, timeout: int)
    requires finish < deadline
    requires ActiveUntil(active, finish + 1)
    ensures Poll(WorkerTrace(active, finish, stored), 0, deadline, timeout)
              == Execution(Completed(finish), stored, None, None, false)
  {
    var trace := WorkerTrace(active, finish, stored);
    assert QuietBetween(trace, 0, finish) by {
      forall j: nat | j < finish ensures Quiet(trace(j)) {
        assert active(j);
      }
    }
    assert active(finish);
    ReadyResponseReturnedVerbatim(trace, finish, deadline, timeout);
  }

  /** A worker still running at the deadline, client live: deadline exceeded. */
  lemma WorkerPastDeadlineTimesOut(
    active: nat -> bool, finish: nat, stored: Response, deadline: int, timeout: int)
    requires deadline <= finish
    requires forall j: nat :: j < deadline ==> active(j)
    ensures Poll(WorkerTrace(active, finish, stored), 0, deadline, timeout) == TimedOutExecution(timeout)
  {
  }

  /**
    A client that leaves while the worker runs is answered at the very tick
    the disconnect is observed, without waiting for the worker.
  */
  lemma DisconnectIsPrompt(
    active: nat -> bool, finish: nat, stored: Response, gone: nat, deadline: int, timeout: int)
    requires gone < deadline
    requires ActiveUntil(active, gone) && !active(gone)
    requires gone <= finish
    ensures Poll(WorkerTrace(active, finish, stored), 0, deadline, timeout)
              == Execution(Disconnected(gone), EmptyResponse, None, None, true)
  {
    var trace := WorkerTrace(active, finish, stored);
    assert QuietBetween(trace, 0, gone) by {
      forall j: nat | j < gone ensures Quiet(trace(j)) {
        assert active(j);
      }
    }
    DisconnectCheckedBeforeReadiness(trace, gone, deadline, timeout);
  }

  /**
    A worker that raised still fills its slot, so a live client inside the
    deadline receives the empty response while the context carries INTERNAL.
  */
  lemma CrashedWorkerStillAnswers(
    active: nat -> bool, finish: nat, message: string, deadline: int, timeout: int)
    requires finish < deadline
    requires ActiveUntil(active, finish + 1)
    ensures RunTask(Raised(message)).code == Some(Internal)
    ensures RunTask(Raised(message)).details == Some(message)
    ensures Poll(WorkerTrace(active, finish, RunTask(Raised(message)).stored), 0, deadline, timeout)
              == Execution(Completed(finish), EmptyResponse, None, None, false)
  {
    WorkerInsideDeadlineAnswers(active, finish, RunTask(Raised(message)).stored, deadline, timeout);
  }

  /**
    `stop_event` is set on every way out: by the loop on a disconnect or a
    timeout, by the worker's `finally` when the loop returns its response.
  */
  lemma StopSignalledOnEveryExit(
    active: nat -> bool, finish: nat, attempt: Try<Response>, deadline: int, timeout: int)
    ensures var r := Poll(WorkerTrace(active, finish, RunTask(attempt).stored), 0, deadline, timeout);
            r.stopSet || (r.outcome.Completed? && finish <= r.outcome.tick && RunTask(attempt).stopSet)
  {
  }

  /**
    End to end: a worker that finishes inside the effective deadline while the
    client stays live delivers `_execute`'s response, and an unknown function
    name reaches the client as the "not supported" error.
  */
  lemma ServedResponseIsDispatchResponse(
    request: Request, handlers: Dispatch.Handlers, active: nat -> bool, finish: nat)
    requires finish < DeadlineTicks(EffectiveTimeout(request.requestTimeoutSec))
    requires ActiveUntil(active, finish + 1)
    ensures Race(request, WorkerTrace(active, finish, Worker(request, handlers).stored)).response
              == Dispatch.ExecuteFunction(request, handlers).response
    ensures request.functionName !in Dispatch.HandlerTable ==>
              Race(request, WorkerTrace(active, finish, Worker(request, handlers).stored)).response.error
                == Dispatch.UnsupportedMessage
  {
    var timeout := EffectiveTimeout(request.requestTimeoutSec);
    WorkerInsideDeadlineAnswers(active, finish, Worker(request, handlers).stored, DeadlineTicks(timeout), timeout);
  }
}
