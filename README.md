# Asynchronous inflector adapter: suspend / resume / cancel

This project models Jersey's `AsyncInflectorAdapter`, the suspendable
wrapper around an inflector (a function from request to response). One
adapter instance is three things at once:

- the single-assignment result future of one invocation of the wrapped inflector;
- the processing context through which that inflector, or anyone holding the
  context, can suspend, resume or cancel the invocation;
- the caller of a processing callback with three hooks: `suspended(time, unit, context)`,
  `resumed()` and `cancelled()`.

The execution state is one of RUNNING, SUSPENDED, RESUMED and CANCELLED.

The project has four files:

- `wrappers.dfy`: `Option`, `Outcome` and `Result`. They stand for Java
  `null` references and for thrown `IllegalStateException`s.
- `context.dfy`, module `InvocationContext`: the adapter's whole state as a
  value (`Context`) and one function per operation, from the old context to the new
  one and to what the Java method returns or throws.
  - The state includes a log of what observers see happen: future completions
    and callback invocations, in order.
  - `Valid` is the invariant: the future is done exactly when the state is
    terminal, and the log is one of the six histories the state machine allows:
    empty, `[suspended]`, `[completion]`, `[suspended, completion, resumed()]`,
    `[completion, cancelled()]` and `[suspended, completion, cancelled()]`.
  - The contract of each operation's function states the legal and illegal
    cases, what is left unchanged, and that `Valid` is preserved.
  - `Complete` and `CancelFuture` are the future's `set` / `setException` and
    `cancel(true)`, sub-steps used inside `Resume`, `EndApply` and `Cancel`.
    They state their effect on the context only and do not keep `Valid` on
    their own: right after them the state may still be RUNNING while the
    future is done. `Resumable`, `Cancellable`, `ToJaxrsResponse` and
    `ConvertedResult` compute values and do not touch the context.
- `adapter.dfy`, module `Adapter`: the class `AsyncInflectorAdapter`, with
  the source's fields updated in place. Each public method is proved to change
  `Model()` exactly as the matching `InvocationContext` function does, and to
  keep `Valid()`. The helpers `Complete`, `InterruptTask`, `CancelFuture` and
  `RunHandler` run inside those methods, where the invariant is briefly broken,
  so they state their effect on `Model()` only.
- `traces.dfy`, module `Traces`: arbitrary sequences of calls on one adapter.
  `RunValid`, `RunAppend`, `RunLogGrows`, `RunTerminal` and `RunReaches` are
  proved by induction over the sequence; `CompletedAtMostOnce` and
  `ResultIsFinal` combine them; the scenario lemmas step through fixed call
  sequences. Together they show:
  - RESUMED and CANCELLED are final.
  - The future is completed at most once, and exactly once when the state is terminal.
  - Whichever of synchronous return, resume or cancel comes first is the
    only one that reaches the future.
  - The hooks fire at most once each, in the allowed order.
  - Three typical scenarios hold: a synchronous return, suspend then resume, and a cancel during the run.

`apply(request)` runs the wrapped inflector in the middle. The model splits it
into `BeginApply` (the request is recorded) and `EndApply` (the inflector
returned or threw). Any suspend, resume or cancel that the inflector, or
another thread, does during the call comes between the two.

Each public method is one atomic step: its monitor-guarded block together
with the unguarded code after it (running the resume handler and
`callback.resumed()`, `callback.suspended(...)`, `super.cancel(true)`). The subclass's
`convertResponse` and JAX-RS `Response.ok(entity).build()` are supplied,
uninterpreted functions: the class constants `convertResponse` and `buildOk`,
and `Env` in `Traces`.

One behaviour follows the code rather than the comment beside it. The
comment at `AsyncInflectorAdapter.java:171` says the inflector's failure is
resumed "if not resumed by an external event already". In the code, that
failure goes to `resume(Throwable)`. On a context that is already RESUMED or
CANCELLED, that call throws `IllegalStateException`, and nothing in `apply`
catches it. `InvocationContext.EndApply` returns that exception.

## Model

| member | source | states |
|---|---|---|
| `Adapter.AsyncInflectorAdapter.constructor` | core-common/src/main/java/org/glassfish/jersey/process/internal/AsyncInflectorAdapter.java:99-143 | a new adapter is RUNNING, its future pending, its default timeout `Suspend.NEVER` in MILLISECONDS, with no request, no default response and an empty log |
| `InvocationContext.SetSuspendTimeout` | core-common/src/main/java/org/glassfish/jersey/process/internal/AsyncInflectorAdapter.java:246-250 | the defaults become `(time, unit)`; state, future, log, request and default response are unchanged; `Valid` is kept |
| `InvocationContext.SuspendTimeouts` | core-common/src/main/java/org/glassfish/jersey/process/internal/AsyncInflectorAdapter.java:247-265 | after `setSuspendTimeout(time, unit)`, `trySuspend()` and `suspend()` fire `suspended(time, unit)`, while `suspend(millis)` fires `suspended(millis, MILLISECONDS)` |
| `InvocationContext.DoSuspend` | core-common/src/main/java/org/glassfish/jersey/process/internal/AsyncInflectorAdapter.java:272-305 | answers true iff the state was RUNNING, and then the only changes are state SUSPENDED and one `suspended(time, unit)` entry in the log; throws `IllegalStateException(state, "suspend")` iff `failOnError` and the state was SUSPENDED or CANCELLED; in every other case (including RESUMED) nothing changes; `Valid` is kept |
| `InvocationContext.TrySuspend` | core-common/src/main/java/org/glassfish/jersey/process/internal/AsyncInflectorAdapter.java:252-255 | true iff the state was RUNNING, and then the context is suspended with the default timeout; otherwise false and nothing changes; never throws |
| `InvocationContext.Suspend` | core-common/src/main/java/org/glassfish/jersey/process/internal/AsyncInflectorAdapter.java:257-260 | throws iff the state was SUSPENDED or CANCELLED; RUNNING is suspended with the default timeout; every other case leaves the context unchanged |
| `InvocationContext.SuspendMillis` | core-common/src/main/java/org/glassfish/jersey/process/internal/AsyncInflectorAdapter.java:262-265 | as `Suspend`, with the timeout `(millis, MILLISECONDS)` whatever the defaults |
| `InvocationContext.SuspendFor` | core-common/src/main/java/org/glassfish/jersey/process/internal/AsyncInflectorAdapter.java:267-270 | as `Suspend`, with the given `(time, unit)` |
| `InvocationContext.Resume` | core-common/src/main/java/org/glassfish/jersey/process/internal/AsyncInflectorAdapter.java:225-244 | succeeds iff the state was RUNNING or SUSPENDED; then the state is RESUMED, the future holds the delivered outcome, and the log grows by that completion followed by `resumed()` iff the state was SUSPENDED; otherwise throws `IllegalStateException(state, "resume")` and nothing changes; timeouts, request and default response are never touched |
| `InvocationContext.ResumeValue` | core-common/src/main/java/org/glassfish/jersey/process/internal/AsyncInflectorAdapter.java:186-194 | from RUNNING or SUSPENDED the state is RESUMED, the future holds `convertResponse(originatingRequest, toJaxrsResponse(value))`, and the log grows by that completion followed by `resumed()` iff the state was SUSPENDED; from RESUMED or CANCELLED it throws `IllegalStateException(state, "resume")` and nothing changes; timeouts, request and default response are never touched |
| `InvocationContext.ResumeFailure` | core-common/src/main/java/org/glassfish/jersey/process/internal/AsyncInflectorAdapter.java:196-223 | from RUNNING or SUSPENDED the state is RESUMED, the future fails with the throwable, for `Error`s too, nothing is rethrown, and the log grows by that completion followed by `resumed()` iff the state was SUSPENDED; from RESUMED or CANCELLED it throws and nothing changes; timeouts, request and default response are never touched |
| `InvocationContext.Cancel` | core-common/src/main/java/org/glassfish/jersey/process/internal/AsyncInflectorAdapter.java:307-320 | from RUNNING or SUSPENDED the state becomes CANCELLED, the future is cancelled and the log grows by that completion and exactly one `cancelled()`; from RESUMED or CANCELLED nothing changes |
| `InvocationContext.BeginApply` | core-common/src/main/java/org/glassfish/jersey/process/internal/AsyncInflectorAdapter.java:151-152 | the request is recorded as the originating request; the state machine is untouched |
| `InvocationContext.EndApply` | core-common/src/main/java/org/glassfish/jersey/process/internal/AsyncInflectorAdapter.java:153-173 | a returned response, while still RUNNING, makes the state RESUMED and completes the future with it, with no hook; once the state has left RUNNING the response is discarded and nothing changes; a thrown failure goes through `resume(Throwable)`: the future fails with it and the log grows by that completion followed by `resumed()` iff the state was SUSPENDED, or, from RESUMED or CANCELLED, `IllegalStateException` escapes and nothing changes; timeouts, request and default response are never touched |
| `InvocationContext.Resumable` | core-common/src/main/java/org/glassfish/jersey/process/internal/AsyncInflectorAdapter.java:103-109 | the `resumableState` guard holds iff the state is not terminal, that is RUNNING or SUSPENDED |
| `InvocationContext.Cancellable` | core-common/src/main/java/org/glassfish/jersey/process/internal/AsyncInflectorAdapter.java:117-123 | the `cancellableState` guard holds exactly when `resumableState` does: iff the state is not terminal |
| `InvocationContext.ConvertedResult` | core-common/src/main/java/org/glassfish/jersey/process/internal/AsyncInflectorAdapter.java:186-194 | the `resume(Object)` handler always sets a value, never a failure: `convertResponse(originatingRequest, r)` for a `Response` r, and `convertResponse(originatingRequest, Response.ok(entity).build())` for any other entity |
| `InvocationContext.Initial` | core-common/src/main/java/org/glassfish/jersey/process/internal/AsyncInflectorAdapter.java:101-129 | a new context is RUNNING, its future pending, its defaults `Suspend.NEVER` and MILLISECONDS, with no request, no default response and an empty log, and it satisfies `Valid` |
| `InvocationContext.ToJaxrsResponse` | core-common/src/main/java/org/glassfish/jersey/process/internal/AsyncInflectorAdapter.java:348-354 | an object that already is a `Response` is returned as it is; any other object becomes `Response.ok(entity).build()` |
| `InvocationContext.Complete` | core-common/src/main/java/org/glassfish/jersey/process/internal/AsyncInflectorAdapter.java:161-221 | `set` / `setException` on a pending future stores the outcome and logs one completion; on a done future nothing changes; the state, timeouts, request and default response are never touched |
| `InvocationContext.CancelFuture` | core-common/src/main/java/org/glassfish/jersey/process/internal/AsyncInflectorAdapter.java:313-336 | `cancel(true)` on a pending future marks it cancelled and logs the completion followed by `cancelled()` from `interruptTask`; on a done future nothing changes; the state and the other fields are never touched |
| `InvocationContext.ErrorsResumeLikeExceptions` | core-common/src/main/java/org/glassfish/jersey/process/internal/AsyncInflectorAdapter.java:200-220 | `resume(Throwable)` with an `Error` and with an exception of the same message gives the same outcome, the same state and the same history, differing only in the throwable the future holds |
| `InvocationContext.SetResponse` | core-common/src/main/java/org/glassfish/jersey/process/internal/AsyncInflectorAdapter.java:338-354 | the default response becomes `toJaxrsResponse(value)`, which is the value itself when it already is a `Response`; nothing else changes |
| `Adapter.AsyncInflectorAdapter.HandlerResult` | core-common/src/main/java/org/glassfish/jersey/process/internal/AsyncInflectorAdapter.java:186-223 | each of the two resume handlers completes the future with a value or a failure, never with a cancellation |
| `Adapter.AsyncInflectorAdapter.Complete` | core-common/src/main/java/org/glassfish/jersey/process/internal/AsyncInflectorAdapter.java:161-166 | the future completes only if still pending, and then the log records the completion |
| `Adapter.AsyncInflectorAdapter.InterruptTask` | core-common/src/main/java/org/glassfish/jersey/process/internal/AsyncInflectorAdapter.java:333-336 | the `cancelled()` hook is logged; nothing else changes |
| `Adapter.AsyncInflectorAdapter.CancelFuture` | core-common/src/main/java/org/glassfish/jersey/process/internal/AsyncInflectorAdapter.java:315 | a pending future becomes cancelled and then `interruptTask()` runs; a done future is left alone |
| `Adapter.AsyncInflectorAdapter.BeginApply` | core-common/src/main/java/org/glassfish/jersey/process/internal/AsyncInflectorAdapter.java:151-152 | the new state is `InvocationContext.BeginApply` of the old; `Valid()` is kept |
| `Adapter.AsyncInflectorAdapter.EndApply` | core-common/src/main/java/org/glassfish/jersey/process/internal/AsyncInflectorAdapter.java:153-173 | the new state and the escaping exception are those of `InvocationContext.EndApply`; `Valid()` is kept |
| `Adapter.AsyncInflectorAdapter.CurrentState` | core-common/src/main/java/org/glassfish/jersey/process/internal/AsyncInflectorAdapter.java:176-184 | returns the current execution state |
| `Adapter.AsyncInflectorAdapter.IsSuspended` | core-common/src/main/java/org/glassfish/jersey/process/internal/AsyncInflectorAdapter.java:322-331 | true iff the state is SUSPENDED |
| `Adapter.AsyncInflectorAdapter.RunHandler` | core-common/src/main/java/org/glassfish/jersey/process/internal/AsyncInflectorAdapter.java:190-221 | running a handler completes the future (if pending) with `HandlerResult` for the request recorded at that moment |
| `Adapter.AsyncInflectorAdapter.ResumeValue` | core-common/src/main/java/org/glassfish/jersey/process/internal/AsyncInflectorAdapter.java:186-194 | the new state and the exception are those of `InvocationContext.ResumeValue`; `Valid()` is kept |
| `Adapter.AsyncInflectorAdapter.ResumeFailure` | core-common/src/main/java/org/glassfish/jersey/process/internal/AsyncInflectorAdapter.java:196-223 | the new state and the exception are those of `InvocationContext.ResumeFailure`; `Valid()` is kept |
| `Adapter.AsyncInflectorAdapter.ResumeWith` | core-common/src/main/java/org/glassfish/jersey/process/internal/AsyncInflectorAdapter.java:225-244 | the net effect is `InvocationContext.Resume` with the handler's result; `Valid()` is kept |
| `Adapter.AsyncInflectorAdapter.SetSuspendTimeout` | core-common/src/main/java/org/glassfish/jersey/process/internal/AsyncInflectorAdapter.java:246-250 | the new state is `InvocationContext.SetSuspendTimeout` of the old |
| `Adapter.AsyncInflectorAdapter.TrySuspend` | core-common/src/main/java/org/glassfish/jersey/process/internal/AsyncInflectorAdapter.java:252-255 | the new state and the answer are those of `InvocationContext.TrySuspend` |
| `Adapter.AsyncInflectorAdapter.Suspend` | core-common/src/main/java/org/glassfish/jersey/process/internal/AsyncInflectorAdapter.java:257-260 | the new state and the exception are those of `InvocationContext.Suspend` |
| `Adapter.AsyncInflectorAdapter.SuspendMillis` | core-common/src/main/java/org/glassfish/jersey/process/internal/AsyncInflectorAdapter.java:262-265 | the new state and the exception are those of `InvocationContext.SuspendMillis` |
| `Adapter.AsyncInflectorAdapter.SuspendFor` | core-common/src/main/java/org/glassfish/jersey/process/internal/AsyncInflectorAdapter.java:267-270 | the new state and the exception are those of `InvocationContext.SuspendFor` |
| `Adapter.AsyncInflectorAdapter.DoSuspend` | core-common/src/main/java/org/glassfish/jersey/process/internal/AsyncInflectorAdapter.java:272-305 | the `switch` on the state, then the hook outside the guarded block: the new state and the result are those of `InvocationContext.DoSuspend` |
| `Adapter.AsyncInflectorAdapter.Cancel` | core-common/src/main/java/org/glassfish/jersey/process/internal/AsyncInflectorAdapter.java:307-320 | the new state is `InvocationContext.Cancel` of the old; `Valid()` is kept |
| `Adapter.AsyncInflectorAdapter.SetResponse` | core-common/src/main/java/org/glassfish/jersey/process/internal/AsyncInflectorAdapter.java:338-341 | the new state is `InvocationContext.SetResponse` of the old |
| `Adapter.AsyncInflectorAdapter.GetResponse` | core-common/src/main/java/org/glassfish/jersey/process/internal/AsyncInflectorAdapter.java:343-346 | returns the stored default response, absent until `setResponse` is called |
| `Traces.ExecValid` | core-common/src/main/java/org/glassfish/jersey/process/internal/AsyncInflectorAdapter.java:151-341 | each single call, whatever it is, keeps the invariant |
| `Traces.RunValid` | core-common/src/main/java/org/glassfish/jersey/process/internal/AsyncInflectorAdapter.java:151-336 | every sequence of calls keeps the invariant: the future is pending exactly in RUNNING and SUSPENDED, and the log is one of the allowed histories |
| `Traces.RunAppend` | core-common/src/main/java/org/glassfish/jersey/process/internal/AsyncInflectorAdapter.java:151-336 | running two call sequences one after the other is the same as running them concatenated |
| `Traces.RunLogGrows` | core-common/src/main/java/org/glassfish/jersey/process/internal/AsyncInflectorAdapter.java:151-336 | no call takes back a completion or a hook invocation: the log only grows |
| `Traces.RunTerminal` | core-common/src/main/java/org/glassfish/jersey/process/internal/AsyncInflectorAdapter.java:186-320 | from RESUMED or CANCELLED, no sequence of calls changes the state, the future or the log |
| `Traces.RunReaches` | core-common/src/main/java/org/glassfish/jersey/process/internal/AsyncInflectorAdapter.java:101-123 | the state only moves RUNNING to anything, or SUSPENDED to RESUMED or CANCELLED |
| `Traces.ValidHistory` | core-common/src/main/java/org/glassfish/jersey/process/internal/AsyncInflectorAdapter.java:225-336 | under the invariant there is one completion exactly when the state is terminal, and at most one `suspended`; `resumed()` and `cancelled()` together fire at most once; every `resumed()` has a `suspended` earlier in the log; each of them comes right after the completion of the future |
| `Traces.CompletedAtMostOnce` | core-common/src/main/java/org/glassfish/jersey/process/internal/AsyncInflectorAdapter.java:151-320 | over any call sequence on a new adapter, the future is completed at most once, exactly once iff the state is RESUMED or CANCELLED, and it is done iff the state is terminal |
| `Traces.ResultIsFinal` | core-common/src/main/java/org/glassfish/jersey/process/internal/AsyncInflectorAdapter.java:151-320 | once the future is done, no later calls change its outcome or the state |
| `Traces.SynchronousReturn` | core-common/src/main/java/org/glassfish/jersey/process/internal/AsyncInflectorAdapter.java:151-173 | an inflector that returns without touching its context completes the future with its response, with no hook |
| `Traces.SuspendThenResume` | core-common/src/main/java/org/glassfish/jersey/process/internal/AsyncInflectorAdapter.java:151-305 | an inflector that calls `suspend()` and returns has its return value dropped, `suspended(NEVER, MILLISECONDS)` fires, and a later `resume(entity)` completes the future with the converted entity, followed by one `resumed()` |
| `Traces.CancelWhileRunning` | core-common/src/main/java/org/glassfish/jersey/process/internal/AsyncInflectorAdapter.java:151-336 | a cancel during the inflector's run leaves the state CANCELLED, the future cancelled and one `cancelled()`; the later return value is discarded |
| `Traces.ResumeHookOnlyAfterSuspend` | core-common/src/main/java/org/glassfish/jersey/process/internal/AsyncInflectorAdapter.java:228-239 | suspend then resume fires `resumed()` exactly once; resuming a still-RUNNING context fires it never |

## Left out

- The Guava `Monitor` and its guards, and concurrent interleavings: each
  public method is one atomic step, so the trace lemmas cover every
  interleaving of whole methods only. Interleavings between a guarded block
  and the unguarded code that follows it are not modelled. For example,
  thread 1 may leave the guarded block of `_suspend` (:293), thread 2 may then
  run all of `resume(x)`, and only then thread 1 calls `suspended(...)` (:298).
  The log is then `[completion, resumed(), suspended]`, which is not a `Valid`
  history. Likewise, between :232 and :235 `state()` already reads RESUMED
  while the future is still pending.
- Inside Guava's `AbstractFuture`: blocking `get`, listeners and their
  notification, the boolean that `set`, `setException` and `cancel` return, and
  the public `cancel(boolean)` called by observers. The future is a
  single-assignment slot.
- Exceptions thrown by `convertResponse` or by the callback hooks. Both are
  supplied code, and the model treats them as total. In the source:
  - a throwing `convertResponse` leaves the future pending with the state
    already RESUMED, still fires `resumed()` if the state was SUSPENDED
    (:235-239), and then escapes `resume`;
  - a throwing `resumed()` escapes `resume` after the state is RESUMED and the
    future is completed (:238);
  - a throwing `suspended(...)` escapes `_suspend` with the state already
    SUSPENDED (:288, :298);
  - a throwing `cancelled()` escapes `cancel()` after the future is already
    cancelled (:315, :335).
- The context handle that `suspended(time, unit, this)` also receives: the
  log records only `(time, unit)`.
- The text of `IllegalStateException` messages: the exception carries the
  state and the operation name that the message is built from.
- The value of `Suspend.NEVER` is 0 in the JAX-RS API. That API is not part
  of this model.
- Logging (the `LOGGER.log` calls and the whole of `ExtendedLogger`),
  `LazyUid`, `toString`, and the `Builder` factory interface. None of them
  change the state.
- The wrapped inflector: its behaviour is its outcome in `EndApply`, plus
  whatever calls it makes between `BeginApply` and `EndApply`.
