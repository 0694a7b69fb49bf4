/** The invocation context of an asynchronous inflector adapter, as values.

    A `Context` is everything an adapter instance holds: its execution state,
    the single-assignment result future, the default suspend timeout, the
    originating request, the fallback response, and a log of what the outside
    world has seen happen (future completions and callback invocations).
    Each public operation of the adapter is a function from the old context to
    the new one (and to what the Java method returns or throws). The class in
    module Adapter is proved against these functions. */
module InvocationContext {
  import opened Wrappers

  const LONG_MIN: int := -0x8000_0000_0000_0000
  const LONG_MAX: int := 0x7FFF_FFFF_FFFF_FFFF

  /** A Java `long`. Timeouts are stored and handed on, never computed with. */
  type Long = x: int | LONG_MIN <= x <= LONG_MAX

  /** `Suspend.NEVER`: the timeout that means "never time out". */
  const NEVER: Long := 0

  /** java.util.concurrent.TimeUnit */
  datatype TimeUnit = NANOSECONDS | MICROSECONDS | MILLISECONDS | SECONDS | MINUTES | HOURS | DAYS

  /** ProcessingContext.State */
  datatype State = RUNNING | SUSPENDED | RESUMED | CANCELLED

  /** The monitor guard `resumableState`. */
  predicate Resumable(s: State): (b: bool)
    ensures b <==> !Terminal(s)
  {
    s == RUNNING || s == SUSPENDED
  }

  /** The monitor guard `cancellableState` (the same condition as `resumableState`). */
  predicate Cancellable(s: State): (b: bool)
    ensures b <==> Resumable(s)
    ensures b <==> !Terminal(s)
  {
    s == RUNNING || s == SUSPENDED
  }

  /** The states no operation leaves. */
  predicate Terminal(s: State) { s == RESUMED || s == CANCELLED }

  /** A Java `Throwable`; `isError` tells `java.lang.Error` apart from exceptions. */
  datatype Throwable = Throwable(isError: bool, message: string)

  /** The `IllegalStateException` thrown for an operation illegal in `state`
      (message ILLEGAL_INVOCATION_CONTEXT_STATE(state, operation)). */
  datatype IllegalStateException = IllegalStateException(state: State, operation: string)

  /** The result future: not yet done, or done exactly one of three ways. */
  datatype Slot<Resp> = Pending | Succeeded(value: Resp) | Failed(cause: Throwable) | Cancelled

  /** What observers of the adapter see: the future being completed, and the
      three hooks of the processing callback. */
  datatype Event<Resp> =
    | FutureCompleted(outcome: Slot<Resp>)
    | SuspendedCall(time: Long, unit: TimeUnit)
    | ResumedCall
    | CancelledCall

  /** An `Object` handed to `resume(Object)` or `setResponse(Object)`: either
      already a JAX-RS `Response`, or any other entity. */
  datatype Payload<Rs, E> = ResponseObject(response: Rs) | EntityObject(entity: E)

  /** What the wrapped inflector's `apply` did: returned a response or threw. */
  datatype InflectorOutcome<Resp> = Returns(response: Resp) | Throws(failure: Throwable)

  datatype Context<Req, Resp, Rs> = Context(
    state: State,
    result: Slot<Resp>,
    defaultTimeout: Long,
    defaultTimeoutUnit: TimeUnit,
    originatingRequest: Option<Req>,
    defaultResponse: Option<Rs>,
    log: seq<Event<Resp>>)

  /** A freshly constructed adapter: the field initialisers. */
  function Initial<Req, Resp, Rs>(): (r: Context<Req, Resp, Rs>)
    ensures r.state == RUNNING && r.result.Pending? && r.log == []
    ensures r.defaultTimeout == NEVER && r.defaultTimeoutUnit == MILLISECONDS
    ensures r.originatingRequest.None? && r.defaultResponse.None?
    ensures Valid(r)
  {
    Context(RUNNING, Pending, NEVER, MILLISECONDS, None, None, [])
  }

  /** The invariant every reachable context keeps: the future is done exactly
      when the state is terminal, and how it was done matches the state; the
      log is one of the six histories of the state machine: [], [S], [FC],
      [S, FC, R], [FC, C] and [S, FC, C], with S a `suspended`, FC the
      completion, R a `resumed()` and C a `cancelled()`. */
  ghost predicate Valid<Req, Resp, Rs>(c: Context<Req, Resp, Rs>)
  {
    match c.state
    case RUNNING => c.result.Pending? && c.log == []
    case SUSPENDED => c.result.Pending? && |c.log| == 1 && c.log[0].SuspendedCall?
    case RESUMED =>
      (c.result.Succeeded? || c.result.Failed?) &&
      (c.log == [FutureCompleted(c.result)] ||
       (|c.log| == 3 && c.log[0].SuspendedCall? &&
        c.log[1] == FutureCompleted(c.result) && c.log[2] == ResumedCall))
    case CANCELLED =>
      c.result.Cancelled? &&
      (c.log == [FutureCompleted(Cancelled), CancelledCall] ||
       (|c.log| == 3 && c.log[0].SuspendedCall? &&
        c.log[1] == FutureCompleted(Cancelled) && c.log[2] == CancelledCall))
  }

  /** `toJaxrsResponse`: a `Response` is kept, any other object is wrapped by
      `Response.ok(entity).build()`, which is `ok` here. */
  function ToJaxrsResponse<Rs, E>(ok: E -> Rs, p: Payload<Rs, E>): (r: Rs)
    ensures p.ResponseObject? ==> r == p.response
    ensures p.EntityObject? ==> r == ok(p.entity)
  {
    match p
    case ResponseObject(r) => r
    case EntityObject(e) => ok(e)
  }

  /** The future's `set` / `setException`: takes effect only while pending. */
  function Complete<Req, Resp, Rs>(c: Context<Req, Resp, Rs>, outcome: Slot<Resp>): (r: Context<Req, Resp, Rs>)
    ensures c.result.Pending? ==> r.result == outcome && r.log == c.log + [FutureCompleted(outcome)]
    ensures !c.result.Pending? ==> r == c
    ensures r.state == c.state
    ensures r.defaultTimeout == c.defaultTimeout && r.defaultTimeoutUnit == c.defaultTimeoutUnit
    ensures r.originatingRequest == c.originatingRequest && r.defaultResponse == c.defaultResponse
  {
    if c.result.Pending? then c.(result := outcome, log := c.log + [FutureCompleted(outcome)]) else c
  }

  /** The future's `cancel(true)`: while pending, marks it cancelled and then
      calls `interruptTask`, which fires the `cancelled()` hook. */
  function CancelFuture<Req, Resp, Rs>(c: Context<Req, Resp, Rs>): (r: Context<Req, Resp, Rs>)
    ensures c.result.Pending? ==>
      r.result == Cancelled && r.log == c.log + [FutureCompleted(Cancelled), CancelledCall]
    ensures !c.result.Pending? ==> r == c
    ensures r.state == c.state
    ensures r.defaultTimeout == c.defaultTimeout && r.defaultTimeoutUnit == c.defaultTimeoutUnit
    ensures r.originatingRequest == c.originatingRequest && r.defaultResponse == c.defaultResponse
  {
    if c.result.Pending? then c.(result := Cancelled, log := c.log + [FutureCompleted(Cancelled), CancelledCall]) else c
  }

  /** `setSuspendTimeout(time, unit)`: replaces the defaults and nothing else. */
  function SetSuspendTimeout<Req, Resp, Rs>(c: Context<Req, Resp, Rs>, time: Long, unit: TimeUnit): (r: Context<Req, Resp, Rs>)
    ensures r.defaultTimeout == time && r.defaultTimeoutUnit == unit
    ensures r.state == c.state && r.result == c.result && r.log == c.log
    ensures r.originatingRequest == c.originatingRequest && r.defaultResponse == c.defaultResponse
    ensures Valid(c) ==> Valid(r)
  {
    c.(defaultTimeout := time, defaultTimeoutUnit := unit)
  }

  /** `_suspend(time, unit, failOnError)`: RUNNING becomes SUSPENDED and the
      `suspended(time, unit)` hook fires; RESUMED answers false; SUSPENDED and
      CANCELLED answer false or, when `failOnError`, throw. */
  function DoSuspend<Req, Resp, Rs>(c: Context<Req, Resp, Rs>, time: Long, unit: TimeUnit, failOnError: bool)
    : (r: (Context<Req, Resp, Rs>, Result<bool, IllegalStateException>))
    ensures r.1 == Success(true) <==> c.state == RUNNING
    ensures r.1.Failure? <==> failOnError && (c.state == SUSPENDED || c.state == CANCELLED)
    ensures r.1.Failure? ==> r.1.error == IllegalStateException(c.state, "suspend")
    ensures r.1 == Success(true) ==> r.0 == c.(state := SUSPENDED, log := c.log + [SuspendedCall(time, unit)])
    ensures r.1 != Success(true) ==> r.0 == c
    ensures Valid(c) ==> Valid(r.0)
  {
    match c.state
    case RESUMED => (c, Success(false))
    case SUSPENDED =>
      if failOnError then (c, Failure(IllegalStateException(SUSPENDED, "suspend"))) else (c, Success(false))
    case CANCELLED =>
      if failOnError then (c, Failure(IllegalStateException(CANCELLED, "suspend"))) else (c, Success(false))
    case RUNNING => (c.(state := SUSPENDED, log := c.log + [SuspendedCall(time, unit)]), Success(true))
  }

  /** `trySuspend()`: suspends with the default timeout; never throws. */
  function TrySuspend<Req, Resp, Rs>(c: Context<Req, Resp, Rs>): (r: (Context<Req, Resp, Rs>, bool))
    ensures r.1 <==> c.state == RUNNING
    ensures r.1 ==> r.0 == c.(state := SUSPENDED, log := c.log + [SuspendedCall(c.defaultTimeout, c.defaultTimeoutUnit)])
    ensures !r.1 ==> r.0 == c
    ensures Valid(c) ==> Valid(r.0)
  {
    var s := DoSuspend(c, c.defaultTimeout, c.defaultTimeoutUnit, false);
    (s.0, s.1.Success? && s.1.value)
  }

  /** `trySuspend()` and `suspend()` suspend with whatever `setSuspendTimeout`
      last set, while `suspend(millis)` ignores it and uses milliseconds. */
  lemma SuspendTimeouts<Req, Resp, Rs>(c: Context<Req, Resp, Rs>, time: Long, unit: TimeUnit, millis: Long)
    requires c.state == RUNNING
    ensures var d := SetSuspendTimeout(c, time, unit);
      TrySuspend(d).0.log == c.log + [SuspendedCall(time, unit)] &&
      Suspend(d).0.log == c.log + [SuspendedCall(time, unit)] &&
      SuspendMillis(d, millis).0.log == c.log + [SuspendedCall(millis, MILLISECONDS)]
  {
  }

  /** The throwing suspends share one shape: only the timeout they pass differs. */
  ghost predicate ThrowingSuspend<Req, Resp, Rs>(c: Context<Req, Resp, Rs>, time: Long, unit: TimeUnit,
                                                 r: (Context<Req, Resp, Rs>, Outcome<IllegalStateException>))
  {
    (r.1.Fail? <==> c.state == SUSPENDED || c.state == CANCELLED) &&
    (r.1.Fail? ==> r.1.error == IllegalStateException(c.state, "suspend")) &&
    (c.state == RUNNING ==> r.0 == c.(state := SUSPENDED, log := c.log + [SuspendedCall(time, unit)])) &&
    (c.state != RUNNING ==> r.0 == c)
  }

  /** Drops the boolean of `_suspend`, keeping the exception. */
  function AsOutcome<C>(s: (C, Result<bool, IllegalStateException>)): (C, Outcome<IllegalStateException>)
  {
    (s.0, if s.1.Failure? then Fail(s.1.error) else Pass)
  }

  /** `suspend()`: suspends with the default timeout, or throws. */
  function Suspend<Req, Resp, Rs>(c: Context<Req, Resp, Rs>): (r: (Context<Req, Resp, Rs>, Outcome<IllegalStateException>))
    ensures ThrowingSuspend(c, c.defaultTimeout, c.defaultTimeoutUnit, r)
    ensures Valid(c) ==> Valid(r.0)
  {
    AsOutcome(DoSuspend(c, c.defaultTimeout, c.defaultTimeoutUnit, true))
  }

  /** `suspend(millis)`: the unit is always milliseconds, whatever the defaults. */
  function SuspendMillis<Req, Resp, Rs>(c: Context<Req, Resp, Rs>, millis: Long): (r: (Context<Req, Resp, Rs>, Outcome<IllegalStateException>))
    ensures ThrowingSuspend(c, millis, MILLISECONDS, r)
    ensures Valid(c) ==> Valid(r.0)
  {
    AsOutcome(DoSuspend(c, millis, MILLISECONDS, true))
  }

  /** `suspend(time, unit)`. */
  function SuspendFor<Req, Resp, Rs>(c: Context<Req, Resp, Rs>, time: Long, unit: TimeUnit): (r: (Context<Req, Resp, Rs>, Outcome<IllegalStateException>))
    ensures ThrowingSuspend(c, time, unit, r)
    ensures Valid(c) ==> Valid(r.0)
  {
    AsOutcome(DoSuspend(c, time, unit, true))
  }

  /** The private `resume(Runnable)`, where running the handler completes the
      future with `delivered`. From RUNNING or SUSPENDED the state becomes
      RESUMED, then the future is completed, then - only if the context was
      SUSPENDED - the `resumed()` hook fires. Otherwise it throws. */
  function Resume<Req, Resp, Rs>(c: Context<Req, Resp, Rs>, delivered: Slot<Resp>): (r: (Context<Req, Resp, Rs>, Outcome<IllegalStateException>))
    ensures r.1.Pass? <==> Resumable(c.state)
    ensures r.1.Fail? ==> r.0 == c && r.1.error == IllegalStateException(c.state, "resume")
    ensures r.1.Pass? ==> r.0.state == RESUMED
    ensures Valid(c) && r.1.Pass? ==>
      r.0.result == delivered &&
      r.0.log == c.log + [FutureCompleted(delivered)] + (if c.state == SUSPENDED then [ResumedCall] else [])
    ensures r.0.defaultTimeout == c.defaultTimeout && r.0.defaultTimeoutUnit == c.defaultTimeoutUnit
    ensures r.0.originatingRequest == c.originatingRequest && r.0.defaultResponse == c.defaultResponse
    ensures Valid(c) && (delivered.Succeeded? || delivered.Failed?) ==> Valid(r.0)
  {
    if Resumable(c.state) then
      var invokeCallback := c.state == SUSPENDED;
      var resumed := Complete(c.(state := RESUMED), delivered);
      (if invokeCallback then resumed.(log := resumed.log + [ResumedCall]) else resumed, Pass)
    else
      (c, Fail(IllegalStateException(c.state, "resume")))
  }

  /** What `resume(Object)`'s handler hands to the future. */
  function ConvertedResult<Req, Resp, Rs, E>(convert: (Option<Req>, Rs) -> Resp, ok: E -> Rs,
                                             request: Option<Req>, p: Payload<Rs, E>): (r: Slot<Resp>)
    ensures r.Succeeded?
    ensures p.ResponseObject? ==> r.value == convert(request, p.response)
    ensures p.EntityObject? ==> r.value == convert(request, ok(p.entity))
  {
    Succeeded(convert(request, ToJaxrsResponse(ok, p)))
  }

  /** `resume(Object)`: completes the future with the converted response,
      converted against the recorded originating request. */
  function ResumeValue<Req, Resp, Rs, E>(convert: (Option<Req>, Rs) -> Resp, ok: E -> Rs,
                                         c: Context<Req, Resp, Rs>, p: Payload<Rs, E>)
    : (r: (Context<Req, Resp, Rs>, Outcome<IllegalStateException>))
    ensures r.1.Pass? <==> Resumable(c.state)
    ensures r.1.Fail? ==> r.0 == c && r.1.error == IllegalStateException(c.state, "resume")
    ensures Valid(c) && r.1.Pass? ==>
      var delivered := Succeeded(convert(c.originatingRequest, ToJaxrsResponse(ok, p)));
      r.0.state == RESUMED && r.0.result == delivered &&
      r.0.log == c.log + [FutureCompleted(delivered)] + (if c.state == SUSPENDED then [ResumedCall] else [])
    ensures r.0.defaultTimeout == c.defaultTimeout && r.0.defaultTimeoutUnit == c.defaultTimeoutUnit
    ensures r.0.originatingRequest == c.originatingRequest && r.0.defaultResponse == c.defaultResponse
    ensures Valid(c) ==> Valid(r.0)
  {
    Resume(c, ConvertedResult(convert, ok, c.originatingRequest, p))
  }

  /** `resume(Throwable)`: completes the future with the failure. An `Error`
      rethrown by the future's `setException` is caught, so the outcome is the
      same for errors and exceptions. */
  function ResumeFailure<Req, Resp, Rs>(c: Context<Req, Resp, Rs>, t: Throwable)
    : (r: (Context<Req, Resp, Rs>, Outcome<IllegalStateException>))
    ensures r.1.Pass? <==> Resumable(c.state)
    ensures r.1.Fail? ==> r.0 == c && r.1.error == IllegalStateException(c.state, "resume")
    ensures Valid(c) && r.1.Pass? ==>
      r.0.state == RESUMED && r.0.result == Failed(t) &&
      r.0.log == c.log + [FutureCompleted(Failed(t))] + (if c.state == SUSPENDED then [ResumedCall] else [])
    ensures r.0.defaultTimeout == c.defaultTimeout && r.0.defaultTimeoutUnit == c.defaultTimeoutUnit
    ensures r.0.originatingRequest == c.originatingRequest && r.0.defaultResponse == c.defaultResponse
    ensures Valid(c) ==> Valid(r.0)
  {
    Resume(c, Failed(t))
  }

  /** `resume(Throwable)` ends the same way for a `java.lang.Error` and for an
      exception with the same message: the same outcome, the same new state,
      and the same history, up to which throwable the future holds. */
  lemma ErrorsResumeLikeExceptions<Req, Resp, Rs>(c: Context<Req, Resp, Rs>, message: string)
    requires Valid(c)
    ensures var error, exception := Throwable(true, message), Throwable(false, message);
      var a, b := ResumeFailure(c, error), ResumeFailure(c, exception);
      a.1 == b.1 && a.0.state == b.0.state &&
      (a.1.Pass? ==> a.0.result == Failed(error) && b.0.result == Failed(exception) &&
                     a.0 == b.0.(result := Failed(error),
                                 log := c.log + [FutureCompleted(Failed(error))] + b.0.log[|c.log| + 1..])) &&
      (a.1.Fail? ==> a.0 == b.0)
  {
  }

  /** `cancel()`: from RUNNING or SUSPENDED the state becomes CANCELLED, the
      future is cancelled and `interruptTask` fires the `cancelled()` hook;
      from RESUMED or CANCELLED it is a silent no-op. */
  function Cancel<Req, Resp, Rs>(c: Context<Req, Resp, Rs>): (r: Context<Req, Resp, Rs>)
    ensures !Cancellable(c.state) ==> r == c
    ensures Cancellable(c.state) ==> r.state == CANCELLED
    ensures Valid(c) && Cancellable(c.state) ==>
      r.result == Cancelled && r.log == c.log + [FutureCompleted(Cancelled), CancelledCall]
    ensures r.defaultTimeout == c.defaultTimeout && r.defaultTimeoutUnit == c.defaultTimeoutUnit
    ensures r.originatingRequest == c.originatingRequest && r.defaultResponse == c.defaultResponse
    ensures Valid(c) ==> Valid(r)
  {
    if Cancellable(c.state) then CancelFuture(c.(state := CANCELLED)) else c
  }

  /** The start of `apply(request)`: the request is recorded before the
      wrapped inflector runs (and before anything it calls back into). */
  function BeginApply<Req, Resp, Rs>(c: Context<Req, Resp, Rs>, request: Req): (r: Context<Req, Resp, Rs>)
    ensures r.originatingRequest == Some(request)
    ensures r.state == c.state && r.result == c.result && r.log == c.log
    ensures r.defaultTimeout == c.defaultTimeout && r.defaultTimeoutUnit == c.defaultTimeoutUnit
    ensures r.defaultResponse == c.defaultResponse
    ensures Valid(c) ==> Valid(r)
  {
    c.(originatingRequest := Some(request))
  }

  /** The rest of `apply(request)`, once the wrapped inflector is done. A
      returned response completes the future only if the context is still
      RUNNING (no hook fires); otherwise it is discarded. A thrown failure goes
      through `resume(Throwable)`, whose exception escapes `apply`. */
  function EndApply<Req, Resp, Rs>(c: Context<Req, Resp, Rs>, outcome: InflectorOutcome<Resp>)
    : (r: (Context<Req, Resp, Rs>, Outcome<IllegalStateException>))
    ensures outcome.Returns? ==> r.1 == Pass
    ensures outcome.Returns? && c.state == RUNNING && Valid(c) ==>
      r.0 == c.(state := RESUMED, result := Succeeded(outcome.response),
                log := c.log + [FutureCompleted(Succeeded(outcome.response))])
    ensures outcome.Returns? && c.state != RUNNING ==> r.0 == c
    ensures outcome.Throws? ==> (r.1.Fail? <==> Terminal(c.state))
    ensures outcome.Throws? && r.1.Fail? ==> r.0 == c && r.1.error == IllegalStateException(c.state, "resume")
    ensures outcome.Throws? && r.1.Pass? && Valid(c) ==>
      r.0.state == RESUMED && r.0.result == Failed(outcome.failure) &&
      r.0.log == c.log + [FutureCompleted(Failed(outcome.failure))] + (if c.state == SUSPENDED then [ResumedCall] else [])
    ensures r.0.defaultTimeout == c.defaultTimeout && r.0.defaultTimeoutUnit == c.defaultTimeoutUnit
    ensures r.0.originatingRequest == c.originatingRequest && r.0.defaultResponse == c.defaultResponse
    ensures Valid(c) ==> Valid(r.0)
  {
    match outcome
    case Returns(response) =>
      if c.state == RUNNING then (Complete(c.(state := RESUMED), Succeeded(response)), Pass) else (c, Pass)
    case Throws(t) => ResumeFailure(c, t)
  }

  /** `setResponse(Object)`: stores the fallback response, outside the state machine. */
  function SetResponse<Req, Resp, Rs, E>(ok: E -> Rs, c: Context<Req, Resp, Rs>, p: Payload<Rs, E>): (r: Context<Req, Resp, Rs>)
    ensures r.defaultResponse == Some(ToJaxrsResponse(ok, p))
    ensures p.ResponseObject? ==> r.defaultResponse == Some(p.response)
    ensures r.state == c.state && r.result == c.result && r.log == c.log
    ensures r.defaultTimeout == c.defaultTimeout && r.defaultTimeoutUnit == c.defaultTimeoutUnit
    ensures r.originatingRequest == c.originatingRequest
    ensures Valid(c) ==> Valid(r)
  {
    c.(defaultResponse := Some(ToJaxrsResponse(ok, p)))
  }
}
