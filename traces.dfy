/** Sequences of calls on one invocation context, and what holds of every
    history the adapter can go through: RESUMED and CANCELLED are final, the
    result future is completed at most once, and each callback hook fires at
    most once, in the order the state machine allows. */
module Traces {
  import opened Wrappers
  import IC = InvocationContext

  /** The collaborators the adapter calls but does not implement: the
      subclass's `convertResponse`, and `Response.ok(entity).build()`. */
  datatype Env<!Req, Resp, !Rs, !E> = Env(convert: (Option<Req>, Rs) -> Resp, ok: E -> Rs)

  /** One call on the adapter. `Apply` is the start of `apply(request)` and
      `InflectorDone` its end, when the wrapped inflector returns or throws;
      calls the inflector makes back into its context come in between. */
  datatype Call<Req, Resp, Rs, E> =
    | Apply(request: Req)
    | InflectorDone(outcome: IC.InflectorOutcome<Resp>)
    | ResumeValue(value: IC.Payload<Rs, E>)
    | ResumeFailure(failure: IC.Throwable)
    | SetSuspendTimeout(time: IC.Long, unit: IC.TimeUnit)
    | TrySuspend
    | Suspend
    | SuspendMillis(millis: IC.Long)
    | SuspendFor(time: IC.Long, unit: IC.TimeUnit)
    | Cancel
    | SetResponse(value: IC.Payload<Rs, E>)

  /** The context after one call (what the call returned or threw is dropped). */
  function Exec<Req, Resp, Rs, E>(env: Env<Req, Resp, Rs, E>, c: IC.Context<Req, Resp, Rs>, call: Call<Req, Resp, Rs, E>)
    : IC.Context<Req, Resp, Rs>
  {
    match call
    case Apply(request) => IC.BeginApply(c, request)
    case InflectorDone(outcome) => IC.EndApply(c, outcome).0
    case ResumeValue(value) => IC.ResumeValue(env.convert, env.ok, c, value).0
    case ResumeFailure(failure) => IC.ResumeFailure(c, failure).0
    case SetSuspendTimeout(time, unit) => IC.SetSuspendTimeout(c, time, unit)
    case TrySuspend => IC.TrySuspend(c).0
    case Suspend => IC.Suspend(c).0
    case SuspendMillis(millis) => IC.SuspendMillis(c, millis).0
    case SuspendFor(time, unit) => IC.SuspendFor(c, time, unit).0
    case Cancel => IC.Cancel(c)
    case SetResponse(value) => IC.SetResponse(env.ok, c, value)
  }

  /** The context after a sequence of calls. */
  function Run<Req, Resp, Rs, E>(env: Env<Req, Resp, Rs, E>, c: IC.Context<Req, Resp, Rs>, calls: seq<Call<Req, Resp, Rs, E>>)
    : IC.Context<Req, Resp, Rs>
    decreases |calls|
  {
    if calls == [] then c else Run(env, Exec(env, c, calls[0]), calls[1..])
  }

  /** The transitions the state machine allows, closed under repetition:
      RUNNING may become anything, SUSPENDED only RESUMED or CANCELLED, and
      the terminal states stay put. */
  predicate Reaches(s: IC.State, t: IC.State)
  {
    s == t || s == IC.RUNNING || (s == IC.SUSPENDED && IC.Terminal(t))
  }

  /** The kinds of observable event, for counting. */
  datatype Kind = Completion | SuspendHook | ResumeHook | CancelHook

  function KindOf<Resp>(e: IC.Event<Resp>): Kind
  {
    match e
    case FutureCompleted(_) => Completion
    case SuspendedCall(_, _) => SuspendHook
    case ResumedCall => ResumeHook
    case CancelledCall => CancelHook
  }

  function Tally<Resp>(e: IC.Event<Resp>, k: Kind): nat
  {
    if KindOf(e) == k then 1 else 0
  }

  /** How many events of kind `k` the log holds. */
  function Count<Resp>(log: seq<IC.Event<Resp>>, k: Kind): nat
  {
    if log == [] then 0 else Tally(log[0], k) + Count(log[1..], k)
  }

  lemma CountThree<Resp>(log: seq<IC.Event<Resp>>, k: Kind)
    requires |log| == 3
    ensures Count(log, k) == Tally(log[0], k) + Tally(log[1], k) + Tally(log[2], k)
  {
    var t1, t2 := log[1..], log[2..];
    assert Count(t2, k) == Tally(log[2], k) by {
      assert t2[0] == log[2] && t2[1..] == [];
    }
    assert Count(t1, k) == Tally(log[1], k) + Count(t2, k) by {
      assert t1[0] == log[1] && t1[1..] == t2;
    }
  }

  lemma CountTwo<Resp>(log: seq<IC.Event<Resp>>, k: Kind)
    requires |log| == 2
    ensures Count(log, k) == Tally(log[0], k) + Tally(log[1], k)
  {
    var t1 := log[1..];
    assert Count(t1, k) == Tally(log[1], k) by {
      assert t1[0] == log[1] && t1[1..] == [];
    }
  }

  /** One call keeps the invariant. */
  lemma ExecValid<Req, Resp, Rs, E>(env: Env<Req, Resp, Rs, E>, c: IC.Context<Req, Resp, Rs>, call: Call<Req, Resp, Rs, E>)
    requires IC.Valid(c)
    ensures IC.Valid(Exec(env, c, call))
  {
  }

  /** Every sequence of calls keeps the invariant. */
  lemma {:induction false} RunValid<Req, Resp, Rs, E>(env: Env<Req, Resp, Rs, E>, c: IC.Context<Req, Resp, Rs>,
                                                       calls: seq<Call<Req, Resp, Rs, E>>)
    requires IC.Valid(c)
    ensures IC.Valid(Run(env, c, calls))
    decreases |calls|
  {
    if calls != [] {
      ExecValid(env, c, calls[0]);
      RunValid(env, Exec(env, c, calls[0]), calls[1..]);
    }
  }

  /** Running two sequences one after the other is running their concatenation. */
  lemma {:induction false} RunAppend<Req, Resp, Rs, E>(env: Env<Req, Resp, Rs, E>, c: IC.Context<Req, Resp, Rs>,
                                                        xs: seq<Call<Req, Resp, Rs, E>>, ys: seq<Call<Req, Resp, Rs, E>>)
    ensures Run(env, c, xs + ys) == Run(env, Run(env, c, xs), ys)
    decreases |xs|
  {
    if xs == [] {
      assert xs + ys == ys;
    } else {
      assert (xs + ys)[0] == xs[0];
      assert (xs + ys)[1..] == xs[1..] + ys;
      RunAppend(env, Exec(env, c, xs[0]), xs[1..], ys);
    }
  }

  /** The log is append-only: no call takes back an observed event. */
  lemma {:induction false} RunLogGrows<Req, Resp, Rs, E>(env: Env<Req, Resp, Rs, E>, c: IC.Context<Req, Resp, Rs>,
                                                          calls: seq<Call<Req, Resp, Rs, E>>)
    ensures c.log <= Run(env, c, calls).log
    decreases |calls|
  {
    if calls != [] {
      var next := Exec(env, c, calls[0]);
      assert c.log <= next.log;
      RunLogGrows(env, next, calls[1..]);
    }
  }

  /** In RESUMED or CANCELLED no sequence of calls changes the state, the
      result or the log. */
  lemma {:induction false} RunTerminal<Req, Resp, Rs, E>(env: Env<Req, Resp, Rs, E>, c: IC.Context<Req, Resp, Rs>,
                                                          calls: seq<Call<Req, Resp, Rs, E>>)
    requires IC.Terminal(c.state)
    ensures var d := Run(env, c, calls); d.state == c.state && d.result == c.result && d.log == c.log
    decreases |calls|
  {
    if calls != [] {
      var next := Exec(env, c, calls[0]);
      assert next.state == c.state && next.result == c.result && next.log == c.log;
      RunTerminal(env, next, calls[1..]);
    }
  }

  /** Every sequence of calls moves the state only along allowed transitions. */
  lemma {:induction false} RunReaches<Req, Resp, Rs, E>(env: Env<Req, Resp, Rs, E>, c: IC.Context<Req, Resp, Rs>,
                                                         calls: seq<Call<Req, Resp, Rs, E>>)
    ensures Reaches(c.state, Run(env, c, calls).state)
    decreases |calls|
  {
    if calls != [] {
      var next := Exec(env, c, calls[0]);
      assert Reaches(c.state, next.state);
      RunReaches(env, next, calls[1..]);
    }
  }

  /** What the invariant says about the log: one completion exactly when the
      state is terminal, each hook at most once, `resumed()` and `cancelled()`
      never both, `resumed()` only after a `suspended(...)`, and each hook of
      resume or cancel right after the completion it follows. */
  lemma ValidHistory<Req, Resp, Rs>(c: IC.Context<Req, Resp, Rs>)
    requires IC.Valid(c)
    ensures Count(c.log, Completion) == (if IC.Terminal(c.state) then 1 else 0)
    ensures Count(c.log, SuspendHook) <= 1
    ensures Count(c.log, ResumeHook) + Count(c.log, CancelHook) <= 1
    ensures Count(c.log, ResumeHook) == 1 ==> Count(c.log, SuspendHook) == 1
    ensures forall i | 0 <= i < |c.log| && c.log[i] == IC.ResumedCall :: exists j | 0 <= j < i :: c.log[j].SuspendedCall?
    ensures IC.Terminal(c.state) ==> IC.FutureCompleted(c.result) in c.log
    ensures forall i | 0 <= i < |c.log| && !c.log[i].FutureCompleted? && !c.log[i].SuspendedCall? ::
              0 < i && c.log[i - 1] == IC.FutureCompleted(c.result)
  {
    var log := c.log;
    if |log| == 3 {
      CountThree(log, Completion);
      CountThree(log, SuspendHook);
      CountThree(log, ResumeHook);
      CountThree(log, CancelHook);
    } else if |log| == 2 {
      CountTwo(log, Completion);
      CountTwo(log, SuspendHook);
      CountTwo(log, ResumeHook);
      CountTwo(log, CancelHook);
    } else if |log| == 1 {
      assert log[1..] == [];
    }
  }

  /** The headline property: over any sequence of calls on a new adapter the
      result future is completed at most once, and exactly once if the context
      has reached RESUMED or CANCELLED. */
  lemma CompletedAtMostOnce<Req, Resp, Rs, E>(env: Env<Req, Resp, Rs, E>, calls: seq<Call<Req, Resp, Rs, E>>)
    ensures var c := Run(env, IC.Initial(), calls);
      Count(c.log, Completion) <= 1 &&
      (Count(c.log, Completion) == 1 <==> IC.Terminal(c.state)) &&
      (IC.Terminal(c.state) <==> !c.result.Pending?)
  {
    RunValid(env, IC.Initial(), calls);
    ValidHistory(Run(env, IC.Initial(), calls));
  }

  /** Once the future holds a value, a failure or a cancellation, no later
      call changes it: whichever of the synchronous return, an external
      resume or a cancel comes first is the only one that ever reaches it. */
  lemma ResultIsFinal<Req, Resp, Rs, E>(env: Env<Req, Resp, Rs, E>,
                                        before: seq<Call<Req, Resp, Rs, E>>, after: seq<Call<Req, Resp, Rs, E>>)
    requires !Run(env, IC.Initial(), before).result.Pending?
    ensures Run(env, IC.Initial(), before + after).result == Run(env, IC.Initial(), before).result
    ensures Run(env, IC.Initial(), before + after).state == Run(env, IC.Initial(), before).state
  {
    var mid := Run(env, IC.Initial(), before);
    RunValid(env, IC.Initial(), before);
    RunAppend(env, IC.Initial(), before, after);
    RunTerminal(env, mid, after);
  }

  /** An inflector that returns "ok" without touching its context: the future
      completes with it synchronously and no hook fires. */
  lemma SynchronousReturn<Req, Resp, Rs, E>(env: Env<Req, Resp, Rs, E>, request: Req, ok: Resp)
    ensures var c := Run(env, IC.Initial(), [Apply(request), InflectorDone(IC.Returns(ok))]);
      c.state == IC.RESUMED && c.result == IC.Succeeded(ok) &&
      c.log == [IC.FutureCompleted(IC.Succeeded(ok))] && c.originatingRequest == Some(request)
  {
    var calls: seq<Call<Req, Resp, Rs, E>> := [Apply(request), InflectorDone(IC.Returns(ok))];
    var c1 := Exec(env, IC.Initial(), calls[0]);
    var c2 := Exec(env, c1, calls[1]);
    assert calls[1..][1..] == [];
    assert Run(env, c1, calls[1..]) == c2;
  }

  /** An inflector that calls `suspend()` and returns null, then an external
      `resume("done")`: the returned value is dropped, `suspended` fires with
      the default timeout, the future gets the converted "done", and
      `resumed()` fires once, after that. */
  lemma SuspendThenResume<Req, Resp, Rs, E>(env: Env<Req, Resp, Rs, E>, request: Req, ignored: Resp, done: E)
    ensures var c := Run(env, IC.Initial(),
                         [Apply(request), Suspend, InflectorDone(IC.Returns(ignored)), ResumeValue(IC.EntityObject(done))]);
      var delivered := IC.Succeeded(env.convert(Some(request), env.ok(done)));
      c.state == IC.RESUMED && c.result == delivered &&
      c.log == [IC.SuspendedCall(IC.NEVER, IC.MILLISECONDS), IC.FutureCompleted(delivered), IC.ResumedCall]
  {
    var calls: seq<Call<Req, Resp, Rs, E>> :=
      [Apply(request), Suspend, InflectorDone(IC.Returns(ignored)), ResumeValue(IC.EntityObject(done))];
    var c1 := Exec(env, IC.Initial(), calls[0]);
    var c2 := Exec(env, c1, calls[1]);
    var c3 := Exec(env, c2, calls[2]);
    var c4 := Exec(env, c3, calls[3]);
    assert c2 == c1.(state := IC.SUSPENDED, log := [IC.SuspendedCall(IC.NEVER, IC.MILLISECONDS)]);
    assert c3 == c2;
    assert calls[3..][1..] == [];
    assert Run(env, c3, calls[3..]) == c4;
    assert calls[2..][1..] == calls[3..];
    assert Run(env, c2, calls[2..]) == c4;
    assert calls[1..][1..] == calls[2..];
    assert Run(env, c1, calls[1..]) == c4;
  }

  /** A cancel while the inflector runs: the state is CANCELLED, the future
      reports cancellation, `cancelled()` fires once, and the inflector's
      eventual return value is discarded. */
  lemma CancelWhileRunning<Req, Resp, Rs, E>(env: Env<Req, Resp, Rs, E>, request: Req, late: Resp)
    ensures var c := Run(env, IC.Initial(), [Apply(request), Cancel, InflectorDone(IC.Returns(late))]);
      c.state == IC.CANCELLED && c.result == IC.Cancelled &&
      c.log == [IC.FutureCompleted(IC.Cancelled), IC.CancelledCall]
  {
    var calls: seq<Call<Req, Resp, Rs, E>> := [Apply(request), Cancel, InflectorDone(IC.Returns(late))];
    var c1 := Exec(env, IC.Initial(), calls[0]);
    var c2 := Exec(env, c1, calls[1]);
    var c3 := Exec(env, c2, calls[2]);
    assert c3 == c2;
    assert calls[2..][1..] == [];
    assert Run(env, c2, calls[2..]) == c3;
    assert calls[1..][1..] == calls[2..];
    assert Run(env, c1, calls[1..]) == c3;
  }

  /** Suspending a running context and then resuming it fires `resumed()`
      exactly once; resuming it while still running fires it never. */
  lemma ResumeHookOnlyAfterSuspend<Req, Resp, Rs, E>(env: Env<Req, Resp, Rs, E>, c: IC.Context<Req, Resp, Rs>,
                                                      v: IC.Payload<Rs, E>)
    requires IC.Valid(c) && c.state == IC.RUNNING
    ensures Count(Run(env, c, [Suspend, ResumeValue(v)]).log, ResumeHook) == 1
    ensures Count(Run(env, c, [ResumeValue(v)]).log, ResumeHook) == 0
  {
    var twice: seq<Call<Req, Resp, Rs, E>> := [Suspend, ResumeValue(v)];
    var suspended := Exec(env, c, twice[0]);
    var resumed := Exec(env, suspended, twice[1]);
    assert twice[1..][1..] == [];
    assert Run(env, suspended, twice[1..]) == resumed;
    assert Run(env, c, twice) == resumed;
    assert resumed.log == [IC.SuspendedCall(c.defaultTimeout, c.defaultTimeoutUnit),
                           IC.FutureCompleted(resumed.result), IC.ResumedCall];
    var once: seq<Call<Req, Resp, Rs, E>> := [ResumeValue(v)];
    var self := Exec(env, c, once[0]);
    assert once[1..] == [];
    assert self.log == [IC.FutureCompleted(self.result)];
    CountThree(resumed.log, ResumeHook);
    ValidHistory(self);
  }
}
