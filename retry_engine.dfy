/**
 * The attempt-bounded retry loop of the test stabilizer (`performTaskUntil`).
 *
 * The browser session and everything the task touches is an opaque context of
 * type `S`. One call of the task is a function from the context before the call
 * to a `TaskRun`: it either returns or throws, and in both cases the context may
 * have changed. The `FluentWait(...).until(isTaskCompleted)` step is abstracted
 * to one boolean per context: true when the wait returns (the completion
 * predicate was seen to hold within the wait window), false when it times out
 * or the predicate throws.
 */
module RetryEngine {

  /** What one call of the task did: it returned or threw, leaving the context `after`. */
  datatype TaskRun<S> = Returned(after: S) | Threw(after: S)

  /** How one attempt (task, then wait) ended. */
  datatype AttemptResult<S> = AttemptResult(succeeded: bool, after: S)

  /**
   * How the whole call ends: normal return after `invocations` task calls, or
   * the `TimeoutException("Task not completed in " + retryCount)` carrying the
   * final value of the loop counter.
   */
  datatype Outcome = Ok(invocations: nat) | Exhausted(retryCount: int)

  /** The outcome of the call together with the context it leaves behind. */
  datatype Run<S> = Run(outcome: Outcome, final: S)

  /** The number of loop iterations the guard `retryCount <= noOfAttempts` admits when no attempt succeeds. */
  function Cap(noOfAttempts: int): nat
  {
    if noOfAttempts <= 0 then 0 else noOfAttempts
  }

  /**
   * One attempt from context `s`: run the task; if it returned, wait for the
   * completion predicate. A throw from either step makes the attempt fail
   * without being propagated.
   */
  function Attempt<S>(task: S -> TaskRun<S>, isTaskCompleted: S -> bool, s: S): AttemptResult<S>
  {
    match task(s)
    case Threw(after) => AttemptResult(false, after)
    case Returned(after) => AttemptResult(isTaskCompleted(after), after)
  }

  /** The context after `k` attempts made from `s`, whatever their results. */
  function StateAfter<S>(task: S -> TaskRun<S>, isTaskCompleted: S -> bool, s: S, k: nat): S
  {
    if k == 0 then s else Attempt(task, isTaskCompleted, StateAfter(task, isTaskCompleted, s, k - 1)).after
  }

  /** Attempt number `k` (counting from 1) started from `s` succeeds. */
  predicate SucceedsAt<S>(task: S -> TaskRun<S>, isTaskCompleted: S -> bool, s: S, k: nat)
    requires k >= 1
  {
    Attempt(task, isTaskCompleted, StateAfter(task, isTaskCompleted, s, k - 1)).succeeded
  }

  /**
   * Reference definition of the retry loop, written as recursion: `made`
   * attempts have already failed and `remaining` more are allowed. The
   * counter reported on exhaustion is one more than the attempts made.
   */
  function Retry<S>(task: S -> TaskRun<S>, isTaskCompleted: S -> bool, s: S, remaining: nat, made: nat): (r: Run<S>)
    ensures r.outcome.Ok? ==> made < r.outcome.invocations <= made + remaining
    ensures r.outcome.Exhausted? ==> r.outcome.retryCount == made + remaining + 1
    decreases remaining
  {
    if remaining == 0 then
      Run(Exhausted(made + 1), s)
    else
      var a := Attempt(task, isTaskCompleted, s);
      if a.succeeded then Run(Ok(made + 1), a.after)
      else Retry(task, isTaskCompleted, a.after, remaining - 1, made + 1)
  }

  /**
   * Retry, started after `m` failed attempts, either stops at the first
   * successful attempt past `m` (and at no later one), or has seen every
   * attempt up to `n` fail and reports `n + 1`.
   */
  lemma {:induction false} RetryFrom<S>(task: S -> TaskRun<S>, isTaskCompleted: S -> bool, s: S, m: nat, n: nat)
    requires m <= n
    ensures var r := Retry(task, isTaskCompleted, StateAfter(task, isTaskCompleted, s, m), n - m, m);
      (r.outcome.Ok? ==>
         var k := r.outcome.invocations;
         m < k <= n && SucceedsAt(task, isTaskCompleted, s, k) &&
         (forall j :: m < j < k ==> !SucceedsAt(task, isTaskCompleted, s, j)) &&
         r.final == StateAfter(task, isTaskCompleted, s, k)) &&
      (r.outcome.Exhausted? ==>
         r.outcome.retryCount == n + 1 &&
         (forall j :: m < j <= n ==> !SucceedsAt(task, isTaskCompleted, s, j)) &&
         r.final == StateAfter(task, isTaskCompleted, s, n))
    decreases n - m
  {
    if m < n {
      RetryFrom(task, isTaskCompleted, s, m + 1, n);
    }
  }

  /**
   * If attempt `k` is the first successful one and `k` attempts are allowed,
   * the call returns normally after exactly `k` task invocations, leaving the
   * context as the `k`-th attempt left it.
   */
  lemma StopsAtFirstSuccess<S>(task: S -> TaskRun<S>, isTaskCompleted: S -> bool, s: S, n: nat, k: nat)
    requires 1 <= k <= n
    requires SucceedsAt(task, isTaskCompleted, s, k)
    requires forall j :: 1 <= j < k ==> !SucceedsAt(task, isTaskCompleted, s, j)
    ensures Retry(task, isTaskCompleted, s, n, 0) == Run(Ok(k), StateAfter(task, isTaskCompleted, s, k))
  {
    RetryFrom(task, isTaskCompleted, s, 0, n);
    var r := Retry(task, isTaskCompleted, s, n, 0);
    // attempt k is allowed and succeeds, so the retries are not exhausted
    assert !r.outcome.Exhausted?;
    var i := r.outcome.invocations;
    assert SucceedsAt(task, isTaskCompleted, s, i);
    // no attempt before k succeeds, and every attempt before i failed
    assert !(i < k);
    assert !(k < i);
  }

  /**
   * If none of the `n` allowed attempts succeeds, the task has run `n` times
   * and the exhaustion error reports `n + 1`.
   */
  lemma AllFailuresExhaust<S>(task: S -> TaskRun<S>, isTaskCompleted: S -> bool, s: S, n: nat)
    requires forall j :: 1 <= j <= n ==> !SucceedsAt(task, isTaskCompleted, s, j)
    ensures Retry(task, isTaskCompleted, s, n, 0) == Run(Exhausted(n + 1), StateAfter(task, isTaskCompleted, s, n))
  {
    RetryFrom(task, isTaskCompleted, s, 0, n);
  }

  /** The call ends in the exhaustion error if and only if none of the allowed attempts succeeds. */
  lemma ExhaustedIffNoSuccess<S>(task: S -> TaskRun<S>, isTaskCompleted: S -> bool, s: S, n: nat)
    ensures Retry(task, isTaskCompleted, s, n, 0).outcome.Exhausted?
        <==> forall j :: 1 <= j <= n ==> !SucceedsAt(task, isTaskCompleted, s, j)
  {
    RetryFrom(task, isTaskCompleted, s, 0, n);
  }

  /**
   * The retry loop as the source writes it. `webDriver` is the context before
   * the call, `ctx` the context after it; `invocations` counts task calls.
   */
  method PerformTaskUntil<S>(webDriver: S, task: S -> TaskRun<S>, isTaskCompleted: S -> bool, noOfAttempts: int)
    returns (result: Outcome, ctx: S, invocations: nat)
    // the task runs at most noOfAttempts times (never, when noOfAttempts <= 0)
    ensures invocations <= Cap(noOfAttempts)
    ensures ctx == StateAfter(task, isTaskCompleted, webDriver, invocations)
    // every attempt before the last one failed, and its failure was swallowed
    ensures forall j :: 1 <= j < invocations ==> !SucceedsAt(task, isTaskCompleted, webDriver, j)
    // normal return exactly when the last attempt made succeeded
    ensures result.Ok? <==> 1 <= invocations && SucceedsAt(task, isTaskCompleted, webDriver, invocations)
    ensures result.Ok? ==> result.invocations == invocations
    // the exception is thrown exactly when none of the allowed attempts succeeds
    ensures result.Exhausted? <==> forall j :: 1 <= j <= noOfAttempts ==> !SucceedsAt(task, isTaskCompleted, webDriver, j)
    // on exhaustion every allowed attempt was made, and the counter is one past them
    ensures result.Exhausted? ==> invocations == Cap(noOfAttempts) && result.retryCount == invocations + 1
    ensures Run(result, ctx) == Retry(task, isTaskCompleted, webDriver, Cap(noOfAttempts), 0)
  {
    var performedTaskSuccessfully := false;
    var retryCount := 1;
    ctx := webDriver;
    invocations := 0;
    ghost var n := Cap(noOfAttempts);

    while !performedTaskSuccessfully && retryCount <= noOfAttempts
      invariant invocations == retryCount - 1
      invariant invocations <= n
      invariant ctx == StateAfter(task, isTaskCompleted, webDriver, invocations)
      invariant forall j :: 1 <= j < invocations ==> !SucceedsAt(task, isTaskCompleted, webDriver, j)
      invariant performedTaskSuccessfully <==> 1 <= invocations && SucceedsAt(task, isTaskCompleted, webDriver, invocations)
      invariant performedTaskSuccessfully ==>
        Retry(task, isTaskCompleted, webDriver, n, 0) == Run(Ok(invocations), ctx)
      invariant !performedTaskSuccessfully ==>
        Retry(task, isTaskCompleted, webDriver, n, 0) == Retry(task, isTaskCompleted, ctx, n - invocations, invocations)
      decreases noOfAttempts - retryCount + 1
    {
      // try { task.accept(webDriver); wait.until(isTaskCompleted); ... } catch (Throwable e) { ... }
      var run := task(ctx);
      invocations := invocations + 1;
      match run {
        case Threw(after) =>
          ctx := after;
          performedTaskSuccessfully := false;
        case Returned(after) =>
          ctx := after;
          performedTaskSuccessfully := isTaskCompleted(after);
      }
      retryCount := retryCount + 1;
    }

    if !performedTaskSuccessfully {
      result := Exhausted(retryCount);
    } else {
      result := Ok(invocations);
    }
    ExhaustedIffNoSuccess(task, isTaskCompleted, webDriver, n);
  }
}
