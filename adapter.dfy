/** The suspendable, asynchronous inflector adapter as a class whose methods
    update its fields in place. The adapter is at once the result future of
    the wrapped inflector and the processing context through which that
    inflector (or anyone holding the context) suspends, resumes or cancels
    the invocation. Every public method is proved to change the adapter
    exactly as the matching function of module InvocationContext says, and to
    keep the invariant `Valid()`. */
module Adapter {
  import opened Wrappers
  import IC = InvocationContext

  /** The two `Runnable`s that `resume(Object)` and `resume(Throwable)` hand
      to the private `resume(Runnable)`. */
  datatype ResumeHandler<Rs, E> = SetConverted(response: IC.Payload<Rs, E>) | SetException(failure: IC.Throwable)

  class AsyncInflectorAdapter<Req, Resp, Rs, E> {
    /** `executionState`, guarded by the monitor; each public method, with the
        unguarded code after its guarded block, is one step here. */
    var executionState: IC.State
    /** The inherited future. */
    var result: IC.Slot<Resp>
    var defaultTimeout: IC.Long
    var defaultTimeoutUnit: IC.TimeUnit
    var defaultResponse: Option<Rs>
    var originatingRequest: Option<Req>
    /** Future completions and callback invocations, in the order they happen. */
    ghost var log: seq<IC.Event<Resp>>

    /** The subclass's `convertResponse(originatingRequest, response)`. */
    const convertResponse: (Option<Req>, Rs) -> Resp
    /** `Response.ok(entity).build()`. */
    const buildOk: E -> Rs

    ghost function Model(): IC.Context<Req, Resp, Rs>
      reads this
    {
      IC.Context(executionState, result, defaultTimeout, defaultTimeoutUnit, originatingRequest, defaultResponse, log)
    }

    ghost predicate Valid()
      reads this
    {
      IC.Valid(Model())
    }

    /** A new adapter is RUNNING, its future pending, its default timeout
        `Suspend.NEVER` milliseconds, with no request and no response yet. */
    constructor (convertResponse: (Option<Req>, Rs) -> Resp, buildOk: E -> Rs)
      ensures Valid() && Model() == IC.Initial()
      ensures this.convertResponse == convertResponse && this.buildOk == buildOk
    {
      this.convertResponse := convertResponse;
      this.buildOk := buildOk;
      executionState := IC.RUNNING;
      result := IC.Pending;
      defaultTimeout := IC.NEVER;
      defaultTimeoutUnit := IC.MILLISECONDS;
      defaultResponse := None;
      originatingRequest := None;
      log := [];
    }

    /** The future's `set` and `setException`: no effect once it is done. */
    method Complete(outcome: IC.Slot<Resp>)
      modifies this
      ensures Model() == IC.Complete(old(Model()), outcome)
    {
      if result.Pending? {
        result := outcome;
        log := log + [IC.FutureCompleted(outcome)];
      }
    }

    /** `interruptTask()`: notifies the callback that the invocation was cancelled. */
    method InterruptTask()
      modifies this
      ensures Model() == old(Model()).(log := old(log) + [IC.CancelledCall])
    {
      log := log + [IC.CancelledCall];
    }

    /** The future's `cancel(true)`: once pending, cancels it and interrupts the task. */
    method CancelFuture()
      modifies this
      ensures Model() == IC.CancelFuture(old(Model()))
    {
      if result.Pending? {
        result := IC.Cancelled;
        log := log + [IC.FutureCompleted(IC.Cancelled)];
        InterruptTask();
      }
    }

    /** `apply(request)` up to the call of the wrapped inflector: records the request. */
    method BeginApply(request: Req)
      requires Valid()
      modifies this
      ensures Valid()
      ensures Model() == IC.BeginApply(old(Model()), request)
    {
      originatingRequest := Some(request);
    }

    /** `apply(request)` from the moment the wrapped inflector returns or throws. */
    method EndApply(outcome: IC.InflectorOutcome<Resp>) returns (o: Outcome<IC.IllegalStateException>)
      requires Valid()
      modifies this
      ensures Valid()
      ensures (Model(), o) == IC.EndApply(old(Model()), outcome)
    {
      match outcome
      case Returns(response) =>
        if executionState == IC.RUNNING {
          // not suspended meanwhile: resumed synchronously, no callback
          executionState := IC.RESUMED;
          Complete(IC.Succeeded(response));
        }
        o := Pass;
      case Throws(t) =>
        o := ResumeFailure(t);
    }

    /** `state()` */
    method CurrentState() returns (s: IC.State)
      ensures s == executionState
    {
      s := executionState;
    }

    /** `isSuspended()` */
    method IsSuspended() returns (b: bool)
      ensures b <==> executionState == IC.SUSPENDED
    {
      b := executionState == IC.SUSPENDED;
    }

    /** What running a resume handler hands to the future. */
    function HandlerResult(h: ResumeHandler<Rs, E>, request: Option<Req>): (s: IC.Slot<Resp>)
      ensures s.Succeeded? || s.Failed?
    {
      match h
      case SetConverted(p) => IC.ConvertedResult(convertResponse, buildOk, request, p)
      case SetException(t) => IC.Failed(t)
    }

    /** Runs a resume handler. For an `Error`, `setException` completes the
        future and then rethrows it; the handler catches that, so both kinds of
        throwable end the same way. */
    method RunHandler(h: ResumeHandler<Rs, E>)
      modifies this
      ensures Model() == IC.Complete(old(Model()), HandlerResult(h, old(originatingRequest)))
    {
      match h
      case SetConverted(p) =>
        Complete(IC.Succeeded(convertResponse(originatingRequest, IC.ToJaxrsResponse(buildOk, p))));
      case SetException(t) =>
        Complete(IC.Failed(t));
    }

    /** `resume(Object)` */
    method ResumeValue(response: IC.Payload<Rs, E>) returns (o: Outcome<IC.IllegalStateException>)
      requires Valid()
      modifies this
      ensures Valid()
      ensures (Model(), o) == IC.ResumeValue(convertResponse, buildOk, old(Model()), response)
    {
      o := ResumeWith(SetConverted(response));
    }

    /** `resume(Throwable)` */
    method ResumeFailure(failure: IC.Throwable) returns (o: Outcome<IC.IllegalStateException>)
      requires Valid()
      modifies this
      ensures Valid()
      ensures (Model(), o) == IC.ResumeFailure(old(Model()), failure)
    {
      o := ResumeWith(SetException(failure));
    }

    /** The private `resume(Runnable)`. */
    method ResumeWith(h: ResumeHandler<Rs, E>) returns (o: Outcome<IC.IllegalStateException>)
      requires Valid()
      modifies this
      ensures Valid()
      ensures (Model(), o) == IC.Resume(old(Model()), HandlerResult(h, old(originatingRequest)))
    {
      if IC.Resumable(executionState) {
        var invokeCallback := executionState == IC.SUSPENDED;
        executionState := IC.RESUMED;
        RunHandler(h);
        if invokeCallback {
          log := log + [IC.ResumedCall];  // callback.resumed()
        }
        o := Pass;
      } else {
        o := Fail(IC.IllegalStateException(executionState, "resume"));
      }
    }

    /** `setSuspendTimeout(time, unit)` */
    method SetSuspendTimeout(time: IC.Long, unit: IC.TimeUnit)
      requires Valid()
      modifies this
      ensures Valid()
      ensures Model() == IC.SetSuspendTimeout(old(Model()), time, unit)
    {
      defaultTimeout := time;
      defaultTimeoutUnit := unit;
    }

    /** `trySuspend()` */
    method TrySuspend() returns (b: bool)
      requires Valid()
      modifies this
      ensures Valid()
      ensures (Model(), b) == IC.TrySuspend(old(Model()))
    {
      var r := DoSuspend(defaultTimeout, defaultTimeoutUnit, false);
      b := r.Success? && r.value;
    }

    /** `suspend()` */
    method Suspend() returns (o: Outcome<IC.IllegalStateException>)
      requires Valid()
      modifies this
      ensures Valid()
      ensures (Model(), o) == IC.Suspend(old(Model()))
    {
      var r := DoSuspend(defaultTimeout, defaultTimeoutUnit, true);
      o := if r.Failure? then Fail(r.error) else Pass;
    }

    /** `suspend(millis)` */
    method SuspendMillis(millis: IC.Long) returns (o: Outcome<IC.IllegalStateException>)
      requires Valid()
      modifies this
      ensures Valid()
      ensures (Model(), o) == IC.SuspendMillis(old(Model()), millis)
    {
      var r := DoSuspend(millis, IC.MILLISECONDS, true);
      o := if r.Failure? then Fail(r.error) else Pass;
    }

    /** `suspend(time, unit)` */
    method SuspendFor(time: IC.Long, unit: IC.TimeUnit) returns (o: Outcome<IC.IllegalStateException>)
      requires Valid()
      modifies this
      ensures Valid()
      ensures (Model(), o) == IC.SuspendFor(old(Model()), time, unit)
    {
      var r := DoSuspend(time, unit, true);
      o := if r.Failure? then Fail(r.error) else Pass;
    }

    /** `_suspend(time, unit, failOnError)` */
    method DoSuspend(time: IC.Long, unit: IC.TimeUnit, failOnError: bool) returns (r: Result<bool, IC.IllegalStateException>)
      requires Valid()
      modifies this
      ensures Valid()
      ensures (Model(), r) == IC.DoSuspend(old(Model()), time, unit, failOnError)
    {
      var suspendSuccessful := false;
      match executionState {
        case RESUMED =>
        case SUSPENDED =>
          if failOnError {
            r := Failure(IC.IllegalStateException(executionState, "suspend"));
            return;
          }
        case CANCELLED =>
          if failOnError {
            r := Failure(IC.IllegalStateException(executionState, "suspend"));
            return;
          }
        case RUNNING =>
          executionState := IC.SUSPENDED;
          suspendSuccessful := true;
      }
      if suspendSuccessful {
        log := log + [IC.SuspendedCall(time, unit)];  // callback.suspended(time, unit, this)
      }
      r := Success(suspendSuccessful);
    }

    /** `cancel()` */
    method Cancel()
      requires Valid()
      modifies this
      ensures Valid()
      ensures Model() == IC.Cancel(old(Model()))
    {
      if IC.Cancellable(executionState) {
        executionState := IC.CANCELLED;
        CancelFuture();
      }
    }

    /** `setResponse(Object)` */
    method SetResponse(response: IC.Payload<Rs, E>)
      requires Valid()
      modifies this
      ensures Valid()
      ensures Model() == IC.SetResponse(buildOk, old(Model()), response)
    {
      defaultResponse := Some(IC.ToJaxrsResponse(buildOk, response));
    }

    /** `getResponse()` */
    method GetResponse() returns (r: Option<Rs>)
      ensures r == defaultResponse
    {
      r := defaultResponse;
    }
  }
}
